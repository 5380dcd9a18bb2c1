/** Expanding a pattern over a directory tree, one directory level at a time. */
module Glob {
  import opened Wrappers
  import opened Pattern
  import opened Matcher
  import opened MatchTheorems
  import opened Paths
  import opened PathPatterns
  import opened GlobPatterns
  import opened Spelling
  import opened Sorting

  /** What the server holds: its files and directories by path, and the paths it fails to look up or list. */
  datatype RemoteTree = RemoteTree(nodes: map<string, bool>, faulty: set<string>) {
    predicate IsDir(p: string) {
      p in nodes && nodes[p]
    }

    /** A tree with nothing at its root called ".". */
    predicate Valid() {
      Tree(nodes) && "." !in nodes
    }

    /** The server lists the directory; the root, spelled "", is always one. */
    predicate Lists(dir: string) {
      dir !in faulty && (dir == "" || IsDir(dir))
    }

    /** A request for the path as spelled finds something. */
    predicate Finds(normalize: bool, name: string) {
      ValidFilePath(NormalPath(normalize, name)) && NormalPath(normalize, name) in nodes && NormalPath(normalize, name) !in faulty
    }

    /** A request for the directory as spelled lists one. */
    predicate Opens(normalize: bool, dir: string) {
      if dir == "" then Lists("") else Finds(normalize, dir) && nodes[NormalPath(normalize, dir)]
    }

    /** Requests for the tree's own paths go where they should: every directory's path is plain, and none for a file
        reaches a directory. */
    predicate Plain(normalize: bool) {
      forall p :: p in nodes ==> if nodes[p] then PlainPath(normalize, p) else !IsDir(NormalPath(normalize, p))
    }
  }

  /** Lstat and Stat: whether the path exists, and is a directory. */
  method Stat(tree: RemoteTree, normalize: bool, name: string) returns (isDir: Option<bool>)
    ensures isDir == if tree.Finds(normalize, name) then Some(tree.nodes[NormalPath(normalize, name)]) else None
  {
    var path := NormalPath(normalize, name);
    isDir := if ValidFilePath(path) && path in tree.nodes && path !in tree.faulty then Some(tree.nodes[path]) else None;
  }

  function DirPath(dir: string): string {
    if dir == "." then "" else dir
  }

  /** ReadDir: the names in a directory, in any order. */
  method ReadDir(tree: RemoteTree, normalize: bool, dir: string) returns (names: Option<seq<string>>)
    ensures var path := DirPath(NormalPath(normalize, dir));
      && (names.Some? <==> (path == "" || ValidFilePath(path)) && tree.Lists(path))
      && (names.Some? ==> NoneTwice(names.value))
      && (names.Some? ==> forall name :: name in names.value <==> SEPARATOR !in name && JoinGlob(path, name) in tree.nodes)
  {
    var path := DirPath(NormalPath(normalize, dir));
    if (path != "" && !ValidFilePath(path)) || !tree.Lists(path) {
      return None;
    }
    var listed := List(tree.nodes, path);
    names := Some(listed);
  }

  /** A directory's entry as the traversal spells it: what the directory is called, and the name listed, which the
      element's pattern matches. */
  ghost predicate Listed(tree: RemoteTree, normalize: bool, dir: string, file: string, p: string) {
    && p == JoinGlob(dir, Base(p)) && Parent(p) == dir && SEPARATOR !in Base(p)
    && JoinGlob(NormalPath(normalize, dir), Base(p)) in tree.nodes
    && Outcome(Normal(normalize, file), Base(p)) == Matched
  }

  predicate IsNameIn(tree: RemoteTree, normalize: bool, dir: string, name: string) {
    SEPARATOR !in name && JoinGlob(NormalPath(normalize, dir), name) in tree.nodes
  }

  /** The directory can be opened and has an entry whose name shows that the pattern is malformed. */
  ghost predicate Rejects(tree: RemoteTree, normalize: bool, dir: string, file: string) {
    && tree.Opens(normalize, DirPath(dir))
    && exists name :: IsNameIn(tree, normalize, DirPath(dir), name) && Outcome(Normal(normalize, file), name) == BadPattern
  }

  /** globDir: adds the entries of a directory whose names match; what cannot be read contributes nothing. */
  method GlobDir(tree: RemoteTree, normalize: bool, dir: string, pattern: string, matches: seq<string>) returns (r: seq<string>, bad: bool)
    requires tree.Valid() && StrictlySorted(matches) && dir != ""
    requires forall p :: p in matches ==> Parent(p) != DirPath(dir)
    ensures bad <==> Rejects(tree, normalize, dir, pattern)
    ensures !bad ==> StrictlySorted(r)
    ensures !bad ==> forall p :: p in r <==>
      p in matches || (tree.Opens(normalize, DirPath(dir)) && Listed(tree, normalize, DirPath(dir), pattern, p))
  {
    hide Outcome, Normal, LastSeparator, StrictlySorted, Parent, Base, JoinGlob, NormalPath, ValidFilePath;
    var d := DirPath(dir);
    RootIsNormal(normalize);
    NoNodeIsEmpty(tree.nodes);
    if dir != "." {
      var isDir := Stat(tree, normalize, dir);
      if isDir != Some(true) {
        return matches, false;
      }
    }
    var entries := ReadDir(tree, normalize, d);
    if entries.None? {
      return matches, false;
    }
    r := matches;
    SortedIsDistinct(matches);
    for i := 0 to |entries.value|
      invariant NoneTwice(r) && forall name :: name in entries.value[..i] ==> Outcome(Normal(normalize, pattern), name) != BadPattern
      invariant forall p :: p in r <==> p in matches || (Listed(tree, normalize, d, pattern, p) && Base(p) in entries.value[..i])
    {
      var name := entries.value[i];
      assert entries.value[..i + 1] == entries.value[..i] + [name];
      JoinedPath(d, name);
      var verdict := Match(normalize, pattern, name);
      if verdict == BadPattern {
        assert IsNameIn(tree, normalize, d, name);
        return r, true;
      }
      if verdict == Matched {
        r := r + [JoinGlob(d, name)];
      }
    }
    assert entries.value[..|entries.value|] == entries.value;
    ghost var unsorted := r;
    r := SortStrings(r);
    assert forall p :: p in r <==> p in multiset(r);
    assert forall p :: p in unsorted <==> p in multiset(unsorted);
    bad := false;
  }

  lemma RootIsNormal(normalize: bool)
    ensures NormalPath(normalize, "") == ""
  {
  }

  lemma SortedIsDistinct(a: seq<string>)
    requires StrictlySorted(a)
    ensures NoneTwice(a)
  {
    forall i, j | 0 <= i < j < |a| ensures a[i] != a[j] {
      LessIsTotal(a[i], a[j]);
    }
  }

  // ----- What the traversal relies on -----

  /** A path of the tree matches a pattern exactly when its directory matches the pattern's directory part
      and its name the last element. */
  lemma PathMatches(tree: RemoteTree, normalize: bool, q: string, p: string)
    requires tree.Valid() && Globbable(q) && IsNormal(normalize, q) && p in tree.nodes
    ensures var ts := Parse(q).terms;
      var named := Outcome(Normal(normalize, FileOf(q)), Base(p)) == Matched;
      var placed := if LastLiteral(ts) < 0 then Parent(p) == "" else Parent(p) != "" && MatchesPath(Directory(ts), Parent(p));
      MatchesPath(ts, p) <==> named && placed
  {
    hide Parse, LastLiteral, LastElement, LastSeparator, Splittable, Outcome, Matches, Directory, Parent, Base;
    hide JoinGlob, OneElement, WellFormed, Normal, LeadsWithDot, FileOf;
    var ts := Parse(q).terms;
    ElementDecides(normalize, q, Base(p));
    ElementsAreSplittable(ts);
    NodeIsInItsDirectory(tree.nodes, p);
    SplittableIsWellFormed(LastElement(ts));
    MatchesByElement(ts, p);
    RootEntry(p);
  }

  lemma RootEntry(p: string)
    ensures LastSeparator(p) < 0 ==> Base(p) == p
  {
  }

  /** The path is an entry of the directory whose name the element's pattern matches. */
  ghost predicate Entry(tree: RemoteTree, normalize: bool, dir: string, file: string, p: string) {
    p in tree.nodes && Parent(p) == dir && Outcome(Normal(normalize, file), Base(p)) == Matched
  }

  /** In a directory that is looked up as it is spelled, what is listed are its entries. */
  lemma ListedIsEntry(tree: RemoteTree, normalize: bool, dir: string, file: string, p: string)
    requires tree.Valid() && NormalPath(normalize, dir) == dir
    ensures Listed(tree, normalize, dir, file, p) <==> Entry(tree, normalize, dir, file, p)
  {
    hide Outcome, Normal, LastSeparator, Parent, Base, JoinGlob, NormalPath;
    if p in tree.nodes {
      NodeIsInItsDirectory(tree.nodes, p);
    }
  }

  lemma OpensAsSpelled(tree: RemoteTree, normalize: bool, dir: string)
    requires tree.Valid() && tree.Plain(normalize) && NormalPath(normalize, dir) == dir
    ensures tree.Opens(normalize, dir) <==> tree.Lists(dir)
  {
    hide NormalPath, ValidFilePath;
    NoNodeIsEmpty(tree.nodes);
  }

  /** What is found below a path of the tree are the entries of that directory. */
  lemma FoundIsEntry(tree: RemoteTree, normalize: bool, file: string, p: string)
    requires tree.Valid() && tree.Plain(normalize) && Parent(p) in tree.nodes
    ensures Found(tree, normalize, file, p) <==> tree.Lists(Parent(p)) && Entry(tree, normalize, Parent(p), file, p)
  {
    hide Listed, Entry, NormalPath, ValidFilePath, Parent;
    NoNodeIsEmpty(tree.nodes);
    if tree.nodes[Parent(p)] {
      ListedIsEntry(tree, normalize, Parent(p), file, p);
    }
  }

  /** The path is listed in a directory that could be opened. */
  ghost predicate Found(tree: RemoteTree, normalize: bool, file: string, p: string) {
    tree.Opens(normalize, Parent(p)) && Listed(tree, normalize, Parent(p), file, p)
  }

  /** Where the directory part is literal, the paths that match are the entries of that directory. */
  lemma LiteralDirectory(tree: RemoteTree, normalize: bool, q: string, p: string)
    requires tree.Valid() && Globbable(q) && IsNormal(normalize, q) && p in tree.nodes
    requires !HasGlobMeta(DirOf(q))
    ensures MatchesPath(Parse(q).terms, p) <==> Entry(tree, normalize, DirPath(DirOf(q)), FileOf(q), p)
  {
    hide Parse, LastLiteral, LastSeparator, Splittable, Outcome, Directory, Parent, Base, JoinGlob, DirOf;
    hide FileOf, HasGlobMeta;
    PathMatches(tree, normalize, q, p);
    NodeIsInItsDirectory(tree.nodes, p);
    if LastLiteral(Parse(q).terms) < 0 {
      RootPattern(q);
    } else {
      DirectoryPart(q);
      PartsOfNormal(normalize, q);
      LiteralIsItsPath(DirOf(q), Parent(p));
    }
  }

  /** Where it has wildcards, they are the entries of the directories that match it. */
  lemma WildDirectory(tree: RemoteTree, normalize: bool, q: string, p: string)
    requires tree.Valid() && Globbable(q) && IsNormal(normalize, q) && p in tree.nodes
    requires HasGlobMeta(DirOf(q))
    ensures Globbable(DirOf(q))
    ensures MatchesPath(Parse(q).terms, p) <==>
      Parent(p) in tree.nodes && MatchesPath(Parse(DirOf(q)).terms, Parent(p)) && Entry(tree, normalize, Parent(p), FileOf(q), p)
  {
    hide Parse, LastLiteral, LastSeparator, Splittable, Outcome, Directory, Parent, Base, JoinGlob, DirOf;
    hide FileOf, Matches;
    PathMatches(tree, normalize, q, p);
    NodeIsInItsDirectory(tree.nodes, p);
    assert !HasGlobMeta(".") && !HasGlobMeta([SEPARATOR]);
    if LastLiteral(Parse(q).terms) < 0 {
      RootPattern(q);
    } else {
      DirectoryPart(q);
    }
    NoNodeIsEmpty(tree.nodes);
  }

  // ----- The traversal -----

  /** Only existing paths that match level by level, in order, each once; and all of them, unless the server failed
      to list something. */
  ghost predicate Expands(tree: RemoteTree, q: string, matches: seq<string>) {
    && StrictlySorted(matches)
    && (forall p :: p in matches ==> p in tree.nodes && MatchesPath(Parse(q).terms, p))
    && (tree.faulty == {} ==> forall p :: p in tree.nodes && MatchesPath(Parse(q).terms, p) ==> p in matches)
  }

  lemma RegularIsNeverBad(normalize: bool, q: string)
    requires IsNormal(normalize, q)
    ensures Regular(q) ==> forall name :: Outcome(q, name) != BadPattern && Outcome(Normal(normalize, FileOf(q)), name) != BadPattern
  {
    hide Outcome, FileOf, Normal, Splittable;
    if Regular(q) {
      forall name ensures Outcome(q, name) != BadPattern && Outcome(Normal(normalize, FileOf(q)), name) != BadPattern {
        GreedyIsRight(q, name);
        ElementDecides(normalize, q, name);
      }
    }
  }

  lemma LiteralExpands(tree: RemoteTree, normalize: bool, q: string, matches: seq<string>)
    requires tree.Valid() && Globbable(q) && IsNormal(normalize, q) && !HasGlobMeta(DirOf(q)) && StrictlySorted(matches)
    requires tree.Plain(normalize) && NormalPath(normalize, DirPath(DirOf(q))) == DirPath(DirOf(q))
    requires forall p :: p in matches <==>
      tree.Opens(normalize, DirPath(DirOf(q))) && Listed(tree, normalize, DirPath(DirOf(q)), FileOf(q), p)
    ensures Expands(tree, q, matches)
  {
    hide Outcome, Normal, Parse, Splittable, MatchesPath, LastSeparator, DirOf, FileOf, HasGlobMeta, Parent, Base;
    hide LeadsWithDot, StrictlySorted, NormalPath, Listed;
    OpensAsSpelled(tree, normalize, DirPath(DirOf(q)));
    forall p ensures Listed(tree, normalize, DirPath(DirOf(q)), FileOf(q), p) <==> Entry(tree, normalize, DirPath(DirOf(q)), FileOf(q), p) {
      ListedIsEntry(tree, normalize, DirPath(DirOf(q)), FileOf(q), p);
    }
    forall p | p in tree.nodes
      ensures MatchesPath(Parse(q).terms, p) <==> Entry(tree, normalize, DirPath(DirOf(q)), FileOf(q), p)
      ensures Parent(p) == "" || tree.IsDir(Parent(p))
    {
      LiteralDirectory(tree, normalize, q, p);
      NodeIsInItsDirectory(tree.nodes, p);
    }
  }

  lemma WildExpands(tree: RemoteTree, normalize: bool, q: string, dirs: seq<string>, matches: seq<string>)
    requires tree.Valid() && Globbable(q) && IsNormal(normalize, q) && HasGlobMeta(DirOf(q)) && StrictlySorted(matches)
    requires tree.Plain(normalize) && Expands(tree, DirOf(q), dirs)
    requires forall p :: p in matches <==> Parent(p) in dirs && Found(tree, normalize, FileOf(q), p)
    ensures Expands(tree, q, matches)
  {
    hide Outcome, Normal, Parse, Splittable, MatchesPath, LastSeparator, DirOf, FileOf, HasGlobMeta, Parent, Base;
    hide LeadsWithDot, StrictlySorted, Found;
    forall p | Parent(p) in dirs
      ensures Found(tree, normalize, FileOf(q), p) <==> tree.Lists(Parent(p)) && Entry(tree, normalize, Parent(p), FileOf(q), p)
    {
      FoundIsEntry(tree, normalize, FileOf(q), p);
    }
    forall p | p in tree.nodes
      ensures MatchesPath(Parse(q).terms, p) <==>
        Parent(p) in tree.nodes && MatchesPath(Parse(DirOf(q)).terms, Parent(p)) && Entry(tree, normalize, Parent(p), FileOf(q), p)
      ensures Parent(p) == "" || tree.IsDir(Parent(p))
    {
      WildDirectory(tree, normalize, q, p);
      NodeIsInItsDirectory(tree.nodes, p);
    }
  }

  /** Not one of the ways the traversal spells the root. */
  predicate IsSpelling(p: string) {
    p != "" && p != "."
  }

  /** The entries of all these directories whose names match. */
  method GlobDirs(tree: RemoteTree, normalize: bool, dirs: seq<string>, file: string) returns (matches: seq<string>, bad: bool)
    requires tree.Valid() && StrictlySorted(dirs) && forall d :: d in dirs ==> IsSpelling(d)
    ensures bad <==> exists d :: d in dirs && Rejects(tree, normalize, d, file)
    ensures !bad ==> StrictlySorted(matches)
    ensures !bad ==> forall p :: p in matches <==> Parent(p) in dirs && Found(tree, normalize, file, p)
  {
    hide Outcome, Normal, Parent, Base, LastSeparator, StrictlySorted;
    SortedListsOfOne("");
    SortedIsDistinct(dirs);
    matches, bad := [], false;
    for i := 0 to |dirs|
      invariant !bad && StrictlySorted(matches) && forall d :: d in dirs[..i] ==> !Rejects(tree, normalize, d, file)
      invariant forall p :: p in matches <==> Parent(p) in dirs[..i] && Found(tree, normalize, file, p)
    {
      assert dirs[i] in dirs && IsSpelling(dirs[i]) && dirs[i] !in dirs[..i];
      assert dirs[..i + 1] == dirs[..i] + [dirs[i]];
      matches, bad := GlobDir(tree, normalize, dirs[i], file, matches);
      if bad {
        return;
      }
    }
    assert dirs[..|dirs|] == dirs;
  }

  /** Where the server lists everything, there is only one right answer. */
  lemma ExpansionIsDetermined(tree: RemoteTree, q: string, a: seq<string>, b: seq<string>)
    requires tree.faulty == {} && Expands(tree, q, a) && Expands(tree, q, b)
    ensures a == b
  {
    hide StrictlySorted, Matches, Parse;
    SortedListIsUnique(a, b);
  }

  /** When the traversal and the matcher agree: of the paths that the matcher accepts, the traversal takes those with
      as many separators as the pattern's text has. It accepts none with fewer, and others only if a class accepts
      the separator. */
  lemma GlobAgreesWithMatch(q: string, p: string)
    requires Globbable(q)
    ensures MatchesPath(Parse(q).terms, p) <==> Outcome(q, p) == Matched && Levels(p) == Levels(q)
    ensures Outcome(q, p) == Matched ==> Levels(p) >= Levels(q)
    ensures WithinElement(Parse(q).terms) ==> (MatchesPath(Parse(q).terms, p) <==> Outcome(q, p) == Matched)
  {
    hide Parse, Levels, Literals, Splittable, Matches, WithinElement, Outcome, Render;
    RendersAs(q);
    var ts := Parse(q).terms;
    SplittableIsWellFormed(ts);
    LevelsOfText(ts);
    MatchDecidesTheGrammar(ts, p);
    if Matches(ts, p, false) {
      MatchHasTheLiterals(ts, p, false);
    }
  }

  /** Every request that the expansion of `q` makes goes where it is spelled for. */
  predicate LooksUp(tree: RemoteTree, normalize: bool, q: string) {
    && tree.Plain(normalize) && NormalPath(normalize, LiteralPart(q)) == LiteralPart(q)
    && (LiteralPart(q) in tree.nodes ==> ValidFilePath(LiteralPart(q)))
  }

  /** What globWith answers: never an error for a regular pattern, and its expansion where requests go where they are
      spelled for; and nothing for any other pattern, malformed or with a class written with a separator. */
  ghost predicate Answers(tree: RemoteTree, normalize: bool, q: string, matches: seq<string>, bad: bool) {
    if Regular(q) then !bad && (LooksUp(tree, normalize, q) ==> Expands(tree, Taken(q), matches))
    else bad || matches == []
  }

  // ----- What each branch of the traversal answers -----

  /** In a tree with no "." at its root no path leads with one. */
  lemma {:induction false} NoDotAtTheRoot(tree: RemoteTree, p: string)
    requires tree.Valid() && p in tree.nodes
    ensures !LeadsWithDot(p)
    decreases |p|
  {
    hide LastSeparator;
    NodeIsInItsDirectory(tree.nodes, p);
    if LeadsWithDot(p) {
      var i := LastSeparator(p);
      assert p[..1] == ".";
      assert i >= 1 && Parent(p) == p[..i];
      if i >= 2 {
        NoDotAtTheRoot(tree, Parent(p));
      }
    }
  }

  lemma HasMember(s: seq<string>)
    ensures s != [] ==> exists p :: p in s
  {
    assert s != [] ==> s[0] in s;
  }

  lemma DotExpandsToNothing(tree: RemoteTree, q: string, matches: seq<string>)
    requires tree.Valid() && LeadsWithDot(q)
    ensures forall p :: p in tree.nodes ==> !MatchesPath(Parse(q).terms, p)
    ensures Expands(tree, q, [])
    ensures Expands(tree, q, matches) ==> matches == []
  {
    hide Parse, LeadsWithDot;
    SortedListsOfOne("");
    forall p | p in tree.nodes ensures !MatchesPath(Parse(q).terms, p) {
      NoDotAtTheRoot(tree, p);
      if Matches(Parse(q).terms, p, false) {
        DotMatchesDot(q, p);
      }
    }
    HasMember(matches);
  }

  lemma ListedIsSpelling(tree: RemoteTree, normalize: bool, dir: string, file: string, p: string)
    requires tree.Valid() && Listed(tree, normalize, dir, file, p)
    ensures IsSpelling(p)
  {
    hide Outcome, Normal, Base, Parent, LastSeparator;
    RootIsNormal(normalize);
    NoNodeIsEmpty(tree.nodes);
  }

  lemma MatchedParses(normalize: bool, q: string, name: string)
    requires IsNormal(normalize, q) && Outcome(Normal(normalize, FileOf(q)), name) == Matched
    ensures Parse(FileOf(q)).ok
  {
    hide Outcome, FileOf, Normal, LastSeparator, DirOf;
    PartsOfNormal(normalize, q);
    NormalChangesNothing(normalize, FileOf(q));
    GreedyIsRight(FileOf(q), name);
  }

  lemma LiteralAnswers(tree: RemoteTree, normalize: bool, q: string, matches: seq<string>)
    requires tree.Valid() && !HasGlobMeta(q) && matches == if tree.Finds(normalize, q) then [q] else []
    ensures Answers(tree, normalize, q, matches, false)
    ensures forall p :: p in matches ==> IsSpelling(p)
  {
    hide Parse, Splittable, MatchesPath, NormalPath, ValidFilePath, HasGlobMeta, StrictlySorted;
    RootIsNormal(normalize);
    DotIsNormal(normalize);
    NoNodeIsEmpty(tree.nodes);
    LiteralIsRegular(q);
    LiteralStartsItself(q);
    SortedListsOfOne(q);
    forall p ensures MatchesPath(Parse(q).terms, p) <==> p == q {
      LiteralIsItsPath(q, p);
    }
  }

  lemma DotIsNormal(normalize: bool)
    ensures NormalPath(normalize, ".") == "."
  {
  }

  lemma OneDirectoryAnswers(tree: RemoteTree, normalize: bool, q: string, matches: seq<string>)
    requires tree.Valid() && IsNormal(normalize, q) && HasGlobMeta(q) && !HasGlobMeta(DirOf(q)) && StrictlySorted(matches)
    requires forall p :: p in matches <==>
      tree.Opens(normalize, DirPath(DirOf(q))) && Listed(tree, normalize, DirPath(DirOf(q)), FileOf(q), p)
    ensures Answers(tree, normalize, q, matches, false)
    ensures forall p :: p in matches ==> IsSpelling(p)
  {
    hide Parse, Splittable, Expands, NormalPath, ValidFilePath, HasGlobMeta, StrictlySorted, Listed, DirOf, FileOf, Outcome, Normal;
    hide LastSeparator;
    forall p | p in matches ensures IsSpelling(p) && Regular(q) {
      ListedIsSpelling(tree, normalize, DirPath(DirOf(q)), FileOf(q), p);
      ListedMatches(tree, normalize, DirPath(DirOf(q)), FileOf(q), p);
      MatchedParses(normalize, q, Base(p));
      LiteralIsRegular(DirOf(q));
      PartsMakeRegular(q);
    }
    HasMember(matches);
    if Regular(q) && LooksUp(tree, normalize, q) {
      OneDirectoryExpands(tree, normalize, q, matches);
    }
  }

  lemma ListedMatches(tree: RemoteTree, normalize: bool, dir: string, file: string, p: string)
    requires Listed(tree, normalize, dir, file, p)
    ensures Outcome(Normal(normalize, file), Base(p)) == Matched
  {
  }

  lemma OneDirectoryExpands(tree: RemoteTree, normalize: bool, q: string, matches: seq<string>)
    requires tree.Valid() && IsNormal(normalize, q) && HasGlobMeta(q) && !HasGlobMeta(DirOf(q)) && StrictlySorted(matches)
    requires forall p :: p in matches <==>
      tree.Opens(normalize, DirPath(DirOf(q))) && Listed(tree, normalize, DirPath(DirOf(q)), FileOf(q), p)
    requires Regular(q) && LooksUp(tree, normalize, q)
    ensures Expands(tree, Taken(q), matches)
  {
    hide Regular, Expands, NormalPath, ValidFilePath, HasGlobMeta, StrictlySorted, Listed, DirOf, FileOf, LastSeparator;
    RootIsNormal(normalize);
    var d := DirOf(q);
    assert LiteralPart(q) == d;
    if !LeadsWithDot(q) {
      LiteralExpands(tree, normalize, q, matches);
    } else if d == "." {
      PartsAfterDot(q);
      TakenIsGlobbable(q);
      LiteralExpands(tree, normalize, q[2..], matches);
    } else {
      DirectoryLeadsWithDot(q);
      forall p ensures p !in matches {
        if p in matches {
          NoDotAtTheRoot(tree, d);
        }
      }
      HasMember(matches);
      DotExpandsToNothing(tree, q, matches);
    }
  }

  lemma DirectoriesAnswer(tree: RemoteTree, normalize: bool, q: string, dirs: seq<string>, matches: seq<string>)
    requires tree.Valid() && IsNormal(normalize, q) && HasGlobMeta(DirOf(q)) && StrictlySorted(matches)
    requires Answers(tree, normalize, DirOf(q), dirs, false)
    requires forall p :: p in matches <==> Parent(p) in dirs && Found(tree, normalize, FileOf(q), p)
    ensures Answers(tree, normalize, q, matches, false)
    ensures forall p :: p in matches ==> IsSpelling(p)
  {
    hide Regular, Expands, LooksUp, Taken, HasGlobMeta, StrictlySorted, Listed, DirOf, FileOf, Outcome, Normal, LastSeparator, Parent;
    hide RemoteTree.Opens;
    forall p | p in matches ensures IsSpelling(p) && Regular(q) {
      ListedIsSpelling(tree, normalize, Parent(p), FileOf(q), p);
      ListedMatches(tree, normalize, Parent(p), FileOf(q), p);
      MatchedParses(normalize, q, Base(p));
      PartsMakeRegular(q);
    }
    HasMember(matches);
    if Regular(q) && LooksUp(tree, normalize, q) {
      WildIsRegular(q);
      StartOfDirectory(tree, normalize, q);
      DirectoriesExpand(tree, normalize, q, dirs, matches);
    }
  }

  lemma StartOfDirectory(tree: RemoteTree, normalize: bool, q: string)
    requires HasGlobMeta(DirOf(q)) && LooksUp(tree, normalize, q)
    ensures LooksUp(tree, normalize, DirOf(q)) && LiteralPart(q) == LiteralPart(DirOf(q))
  {
    hide HasGlobMeta, DirOf, NormalPath, ValidFilePath;
  }

  lemma DirectoriesExpand(tree: RemoteTree, normalize: bool, q: string, dirs: seq<string>, matches: seq<string>)
    requires tree.Valid() && IsNormal(normalize, q) && HasGlobMeta(DirOf(q)) && StrictlySorted(matches)
    requires Regular(q) && LooksUp(tree, normalize, q) && Expands(tree, Taken(DirOf(q)), dirs)
    requires forall p :: p in matches <==> Parent(p) in dirs && Found(tree, normalize, FileOf(q), p)
    ensures Expands(tree, Taken(q), matches)
  {
    hide Regular, Expands, HasGlobMeta, StrictlySorted, Found, DirOf, FileOf, LastSeparator, Parent, NormalPath, ValidFilePath, LiteralPart;
    StartOfDirectory(tree, normalize, q);
    PartsOfNormal(normalize, q);
    if !LeadsWithDot(q) {
      WildExpands(tree, normalize, q, dirs, matches);
    } else {
      PartsAfterDot(q);
      if LiteralPart(q) == "." {
        TakenIsGlobbable(q);
        WildExpands(tree, normalize, q[2..], dirs, matches);
      } else {
        DotExpandsToNothing(tree, DirOf(q), dirs);
        HasMember(matches);
        DotExpandsToNothing(tree, q, matches);
      }
    }
  }

  /** Where everything can be looked up and listed, when the answer is right. A regular pattern's is unless it leads with
      "." and the rest matches something; another well-formed pattern's is exactly if it is not rejected and no path
      of the tree matches it; a malformed one is at least never expanded. */
  lemma WhenExpansionIsRight(tree: RemoteTree, normalize: bool, q: string, matches: seq<string>, bad: bool)
    requires tree.Valid() && tree.faulty == {} && LooksUp(tree, normalize, q) && Answers(tree, normalize, q, matches, bad)
    ensures Parse(q).ok ==> (!bad && Expands(tree, q, matches) <==>
      if Regular(q) then Taken(q) == q || NothingMatches(tree, Taken(q)) else !bad && NothingMatches(tree, q))
    ensures !Parse(q).ok ==> bad || matches == []
  {
    hide MatchesPath, LooksUp, LiteralPart, Splittable, Parse;
    if Regular(q) && Taken(q) != q {
      DotExpandsToNothing(tree, q, matches);
    }
    HasMember(matches);
    SortedListsOfOne("");
  }

  ghost predicate NothingMatches(tree: RemoteTree, q: string) {
    forall p :: p in tree.nodes ==> !MatchesPath(Parse(q).terms, p)
  }

  /** The traversal comes to this path: it finds the literal pattern, or lists the path in the directory named, or in
      one that it comes to. */
  ghost predicate ComesTo(tree: RemoteTree, normalize: bool, q: string, p: string)
    decreases |q|
  {
    PartsOfPattern(q);
    if !HasGlobMeta(q) then tree.Finds(normalize, q) && p == q
    else if !HasGlobMeta(DirOf(q)) then
      tree.Opens(normalize, DirPath(DirOf(q))) && Listed(tree, normalize, DirPath(DirOf(q)), FileOf(q), p)
    else ComesTo(tree, normalize, DirOf(q), Parent(p)) && Found(tree, normalize, FileOf(q), p)
  }

  /** The pattern shows to be malformed on the empty name, or on one that the traversal comes to. */
  ghost predicate ShowsMalformed(tree: RemoteTree, normalize: bool, q: string)
    decreases |q|
  {
    PartsOfPattern(q);
    || Outcome(q, "") == BadPattern
    || (HasGlobMeta(q) &&
          if !HasGlobMeta(DirOf(q)) then Rejects(tree, normalize, DirOf(q), FileOf(q))
          else ShowsMalformed(tree, normalize, DirOf(q))
               || exists d :: ComesTo(tree, normalize, DirOf(q), d) && Rejects(tree, normalize, d, FileOf(q)))
  }

  /** globWith. */
  method GlobWith(tree: RemoteTree, normalize: bool, pattern: string) returns (matches: seq<string>, bad: bool)
    requires tree.Valid()
    ensures !bad ==> StrictlySorted(matches) && forall p :: p in matches ==> IsSpelling(p)
    ensures Answers(tree, normalize, Normal(normalize, pattern), matches, bad)
    ensures bad <==> ShowsMalformed(tree, normalize, Normal(normalize, pattern))
    ensures !bad ==> forall p :: p in matches <==> ComesTo(tree, normalize, Normal(normalize, pattern), p)
    ensures Outcome(Normal(normalize, pattern), "") == BadPattern ==> bad
    ensures RejectsDirectory(normalize, Normal(normalize, pattern)) ==> bad
    ensures !bad && !HasGlobMeta(Normal(normalize, pattern)) ==>
      matches == if tree.Finds(normalize, Normal(normalize, pattern)) then [Normal(normalize, pattern)] else []
    ensures !bad && ListsOneDirectory(Normal(normalize, pattern)) ==> forall p :: p in matches <==>
      && tree.Opens(normalize, DirPath(DirOf(Normal(normalize, pattern))))
      && Listed(tree, normalize, DirPath(DirOf(Normal(normalize, pattern))), FileOf(Normal(normalize, pattern)), p)
    decreases |pattern|
  {
    hide Outcome, Normal, Regular, Taken, LooksUp, Expands, LastSeparator, DirOf, FileOf, HasGlobMeta, Parent, Base;
    hide LeadsWithDot, StrictlySorted, Listed, Found, NormalPath, ValidFilePath, LiteralPart;
    var q := NormPattern(normalize, pattern);
    NormalIsNormalHere(normalize, pattern);
    NormalChangesNothing(normalize, q);
    PartsOfNormal(normalize, q);
    NormalChangesNothing(normalize, DirOf(q));
    SortedListsOfOne(q);
    RegularIsNeverBad(normalize, q);
    var verdict := Match(normalize, q, "");
    if verdict == BadPattern {
      return [], true;
    }
    bad := false;
    if !HasGlobMeta(q) {
      var found := Stat(tree, normalize, q);
      matches := if found.None? then [] else [q];
      LiteralAnswers(tree, normalize, q, matches);
      return;
    }
    if !HasGlobMeta(DirOf(q)) {
      matches, bad := GlobDir(tree, normalize, DirOf(q), FileOf(q), []);
      if !bad {
        OneDirectoryAnswers(tree, normalize, q, matches);
      }
      return;
    }
    var dirs;
    dirs, bad := GlobWith(tree, normalize, DirOf(q));
    if Regular(q) {
      WildIsRegular(q);
    }
    if bad {
      return [], true;
    }
    matches, bad := GlobDirs(tree, normalize, dirs, FileOf(q));
    if !bad {
      DirectoriesAnswer(tree, normalize, q, dirs, matches);
    }
  }

  lemma NoNodeIsEmpty(nodes: map<string, bool>)
    requires Tree(nodes)
    ensures "" !in nodes
  {
    assert !TreeNode(nodes, "");
  }

  lemma SortedListsOfOne(x: string)
    ensures StrictlySorted([]) && StrictlySorted([x])
  {
  }

  predicate ListsOneDirectory(q: string) {
    HasGlobMeta(q) && !HasGlobMeta(DirOf(q))
  }

  /** The traversal rejects a pattern whose directory part it takes for a malformed pattern. */
  predicate RejectsDirectory(normalize: bool, q: string) {
    HasGlobMeta(q) && HasGlobMeta(DirOf(q)) && Outcome(Normal(normalize, DirOf(q)), "") == BadPattern
  }

  // ----- Where the traversal and the matcher disagree -----

  const NOT_SEPARATOR: Term := Class(true, [Range(SEPARATOR, SEPARATOR, false)])

  /** A separator inside a class splits the pattern there: "[^\\]*" is well formed, matches every
      name at the root, and is rejected. */
  lemma SeparatorInAClassIsRejected()
    ensures var ts := [NOT_SEPARATOR, Star];
      WellFormed(ts) && Render(ts) == "[^\\]*" && WithinElement(ts)
    ensures RejectsDirectory(true, "[^\\]*")
  {
    assert RenderRanges([]) == "]" && RenderRanges([Range(SEPARATOR, SEPARATOR, false)]) == "\\]";
    assert Render([Star]) == "*" by {
      assert Render([]) == "";
    }
    assert [NOT_SEPARATOR, Star][1..] == [Star];
    assert "[^" + [SEPARATOR] + "]*" == "[^\\]*";
    SplitOf("[^", "]*");
    OpenClassIsBad();
    assert IsMeta("[^"[0]) && IsMeta("[^\\]*"[0]);
    NormalChangesNothing(true, "[^");
  }

  /** A class that accepts the separator takes it: "x[^a]y" matches the path "x\\y", in which no directory lists a name
      that it matches. */
  lemma ClassTakesTheSeparator()
    ensures Globbable("x[^a]y") && Outcome("x[^a]y", "x\\y") == Matched
    ensures !MatchesPath(Parse("x[^a]y").terms, "x\\y") && Levels("x\\y") > Levels("x[^a]y")
  {
    hide Outcome, Parse, Levels;
    var ts := [Lit('x'), NOT_A, Lit('y')];
    ClassBetweenLiterals(ts);
    ParseInvertsRender(ts);
    LevelsOfText(ts);
    NoLevels("x[^a]y");
    NoLevels("x\\y");
    assert "x\\y"[1] == SEPARATOR;
    assert forall i :: 0 <= i < |ts| ==> ts[i] != Star;
    MatchDecidesTheGrammar(ts, "x\\y");
  }

  lemma ClassBetweenLiterals(ts: seq<Term>)
    requires ts == [Lit('x'), NOT_A, Lit('y')]
    ensures Splittable(ts) && Render(ts) == "x[^a]y"
    ensures Matches(ts, "x\\y", false)
  {
    hide Matches, Render;
    OneTermEach(Lit('x'), NOT_A, Lit('y'), 'x', SEPARATOR, 'y');
    ClassIsRendered();
    RenderConcat([Lit('x')], [NOT_A] + [Lit('y')]);
    RenderConcat([NOT_A], [Lit('y')]);
    assert ts == [Lit('x')] + ([NOT_A] + [Lit('y')]);
  }

  lemma OneTermEach(s: Term, t: Term, u: Term, a: char, b: char, c: char)
    requires Accepts(s, a) && Accepts(t, b) && Accepts(u, c)
    ensures Matches([s, t, u], [a, b, c], false)
  {
    OneTakes(u, c, "", []);
    hide Matches, Accepts;
    OneTakes(t, b, [c] + "", [u] + []);
    OneTakes(s, a, [b] + ([c] + ""), [t] + ([u] + []));
    assert [s] + ([t] + ([u] + [])) == [s, t, u] && [a] + ([b] + ([c] + "")) == [a, b, c];
  }

  lemma ClassIsRendered()
    ensures RenderTerm(NOT_A) == Render([NOT_A]) == "[^a]" && forall c :: Render([Lit(c)]) == [c]
  {
    assert Render([]) == "" && RenderRanges([]) == "]";
    assert RenderRanges([Range('a', 'a', false)]) == "a]";
  }

  lemma OpenClassIsBad()
    ensures Outcome("[^", "") == BadPattern
  {
    assert "[^"[1..] == "^" && "^"[1..] == "";
    assert Parse("[^") == Parsed([], false);
    GreedyIsRight("[^", "");
  }

  lemma DotIsTheDirectory()
    ensures DirOf(".\\*") == "." && FileOf(".\\*") == "*" && ListsOneDirectory(".\\*")
  {
    assert "." + [SEPARATOR] + "*" == ".\\*";
    SplitOf(".", "*");
    assert IsMeta(".\\*"[2]) && !HasGlobMeta(".");
  }

  /** A literal pattern is looked up as it is trimmed: it is expanded rightly exactly if that path is one of the tree
      whenever the pattern itself is. */
  lemma WhenLiteralIsRight(tree: RemoteTree, normalize: bool, q: string)
    requires tree.Valid() && tree.faulty == {} && !HasGlobMeta(q)
    ensures var path := NormalPath(normalize, q);
      Expands(tree, q, if tree.Finds(normalize, q) then [q] else []) <==> (path in tree.nodes && ValidFilePath(path) <==> q in tree.nodes)
  {
    hide Parse, MatchesPath, NormalPath, ValidFilePath, HasGlobMeta, StrictlySorted;
    SortedListsOfOne(q);
    forall p ensures MatchesPath(Parse(q).terms, p) <==> p == q {
      LiteralIsItsPath(q, p);
    }
  }

  /** Paths are trimmed when they are looked up: "x " is found where there is only "x". */
  lemma TrimmedPathIsFound(tree: RemoteTree)
    requires tree.nodes == map["x" := false] && tree.faulty == {}
    ensures tree.Valid() && !HasGlobMeta("x ") && Regular("x ")
    ensures tree.Finds(true, "x ") && "x " !in tree.nodes
  {
    LiteralIsRegular("x ");
    TrimsLast('x');
    NameIsValid('x');
    LastSeparatorBeforeName("x");
  }

  lemma TrimsLast(c: char)
    requires !IsSpace(c) && c != '/'
    ensures NormalPath(true, [c, ' ']) == [c]
  {
    var p := [c, ' '];
    assert SolidFrom(p, 0) == 0 && SolidTo(p, 0, 2) == SolidTo(p, 0, 1) == 1;
    assert p[0..1] == [c] && Slashes([c]) == [c];
  }

  lemma NameIsValid(c: char)
    requires c != SEPARATOR && c != '/' && c != '\0' && c != '.'
    ensures ValidFilePath([c])
  {
    assert DepthAfter([c], 0, 0, 0) == DepthAfter([c], 0, 1, 0);
    assert [c][0..1] == [c];
  }

  lemma LastSeparatorBeforeName(name: string)
    requires SEPARATOR !in name
    ensures LastSeparator(name) == -1 && Base(name) == name && Parent(name) == ""
  {
  }

  /** And "d \\*" lists the directory "d", whose entry it spells "d \\f". */
  lemma TrimmedDirectoryIsListed(tree: RemoteTree)
    requires tree.nodes == map["d" := true, "d\\f" := false] && tree.faulty == {}
    ensures tree.Valid() && ListsOneDirectory("d \\*") && DirOf("d \\*") == "d " && FileOf("d \\*") == "*"
    ensures tree.Opens(true, "d ") && Listed(tree, true, "d ", "*", "d \\f") && "d \\f" !in tree.nodes
  {
    hide LastSeparator, NormalPath, ValidFilePath, Outcome, Normal;
    TrimsLast('d');
    NameIsValid('d');
    LastSeparatorBeforeName("d");
    JoinedPath("d", "f");
    JoinedPath("d ", "f");
    assert JoinGlob("d", "f") == "d\\f" && JoinGlob("d ", "f") == "d \\f";
    assert "d " + [SEPARATOR] + "*" == "d \\*";
    SplitOf("d ", "*");
    assert IsMeta("d \\*"[3]) && !HasGlobMeta("d ");
    NormalChangesNothing(true, "*");
    StarMatchesNames("f");
  }

  /** With normalisation switched off, a directory part "." is taken for the root: ".\\*" lists
      the root's entries, none of which it matches. */
  lemma DotIsTakenForTheRoot(tree: RemoteTree, p: string)
    requires tree.Valid() && p in tree.nodes && LastSeparator(p) < 0
    ensures ListsOneDirectory(".\\*") && Listed(tree, false, DirPath(DirOf(".\\*")), FileOf(".\\*"), p)
    ensures !Matches(Parse(".\\*").terms, p, false)
  {
    hide Outcome, Parse, LastSeparator, Matches, Normal, DirOf, FileOf, ListsOneDirectory;
    DotIsTheDirectory();
    RootEntryIsItself(p);
    StarMatchesNames(p);
    NormalChangesNothing(false, "*");
    DotPatternParses();
    DotNeedsASeparator(p);
  }

  lemma RootEntryIsItself(p: string)
    requires LastSeparator(p) < 0
    ensures Parent(p) == "" && Base(p) == p && SEPARATOR !in p
  {
  }

  lemma DotNeedsASeparator(p: string)
    requires SEPARATOR !in p
    ensures !Matches([Lit('.'), Lit(SEPARATOR), Star], p, false)
  {
    assert [Lit('.'), Lit(SEPARATOR), Star][1..] == [Lit(SEPARATOR), Star];
    assert p != "" ==> !Matches([Lit(SEPARATOR), Star], p[1..], false);
  }

  lemma StarMatchesNames(name: string)
    requires SEPARATOR !in name
    ensures Outcome("*", name) == Matched
  {
    assert "*"[1..] == "";
    assert Parse("*") == Parsed([Star], true);
    assert Matches([Star], name, false) by {
      assert [Star][1..] == [] && name[..|name|] == name && name[|name|..] == "";
    }
    GreedyIsRight("*", name);
  }

  lemma DotPatternParses()
    ensures Parse(".\\*") == Parsed([Lit('.'), Lit(SEPARATOR), Star], true)
  {
    assert ".\\*"[1..] == "\\*" && "\\*"[1..] == "*" && "*"[1..] == "";
    assert Parse("*") == Parsed([Star], true) && Parse("\\*") == Parsed([Lit(SEPARATOR), Star], true);
  }
}
