/** Matching a path is matching it element by element. */
module PathPatterns {
  import opened Wrappers
  import opened Pattern
  import opened Matcher
  import opened MatchTheorems
  import opened Paths

  // ----- Patterns as lists of elements -----

  /** No class is written with a separator, so that the separators of the pattern's text are exactly its literal ones. */
  predicate Splittable(ts: seq<Term>) {
    WellFormed(ts) && forall i :: 0 <= i < |ts| && ts[i].Class? ==> SEPARATOR !in RenderTerm(ts[i])
  }

  predicate OneElement(ts: seq<Term>) {
    Lit(SEPARATOR) !in ts
  }

  lemma ConcatIsAssociative(a: string, b: string, c: string)
    ensures a + (b + c) == (a + b) + c
  {
  }

  lemma {:induction false} RenderConcat(a: seq<Term>, b: seq<Term>)
    ensures Render(a + b) == Render(a) + Render(b)
  {
    hide RenderTerm;
    if a == [] {
      assert a + b == b;
    } else {
      RenderConcat(a[1..], b);
      assert (a + b)[1..] == a[1..] + b;
      ConcatIsAssociative(RenderTerm(a[0]), Render(a[1..]), Render(b));
    }
  }

  lemma {:induction false} OneElementRendered(ts: seq<Term>)
    requires Splittable(ts) && OneElement(ts)
    ensures SEPARATOR !in Render(ts)
  {
    if ts != [] {
      assert Splittable(ts[1..]) && OneElement(ts[1..]) by {
        assert forall i :: 0 <= i < |ts[1..]| ==> ts[1..][i] == ts[i + 1];
      }
      OneElementRendered(ts[1..]);
      assert WellFormedTerm(ts[0]) && SEPARATOR !in RenderTerm(ts[0]);
    }
  }

  /** What terms of one element match holds no separator. */
  lemma {:induction false} OneElementMatches(ts: seq<Term>, s: string)
    requires WithinElement(ts) && OneElement(ts) && Matches(ts, s, false)
    ensures SEPARATOR !in s
  {
    if ts != [] {
      var rest := ts[1..];
      assert WithinElement(rest) && OneElement(rest) by {
        assert forall i :: 0 <= i < |rest| ==> rest[i] == ts[i + 1];
      }
      if ts[0].Star? {
        var k :| 0 <= k <= |s| && SEPARATOR !in s[..k] && Matches(rest, s[k..], false);
        OneElementMatches(rest, s[k..]);
        assert s == s[..k] + s[k..];
      } else {
        OneElementMatches(rest, s[1..]);
        assert s == [s[0]] + s[1..] && !Crosses(ts[0]);
      }
    }
  }

  ghost predicate MatchesAt(a: seq<Term>, b: seq<Term>, s: string, k: int) {
    0 <= k <= |s| && Matches(a, s[..k], false) && Matches(b, s[k..], false)
  }

  lemma {:induction false} MatchesConcat(a: seq<Term>, b: seq<Term>, s: string)
    ensures Matches(a + b, s, false) <==> exists k :: MatchesAt(a, b, s, k)
  {
    if a == [] {
      assert a + b == b;
      assert s[0..] == s;
      assert Matches(b, s, false) ==> MatchesAt(a, b, s, 0);
    } else {
      assert (a + b)[0] == a[0] && (a + b)[1..] == a[1..] + b;
      if Matches(a + b, s, false) {
        SplitsSomewhere(a, b, s);
      }
      forall k | MatchesAt(a, b, s, k) ensures Matches(a + b, s, false) {
        JoinsAgain(a, b, s, k);
      }
    }
  }

  lemma {:induction false} SplitsSomewhere(a: seq<Term>, b: seq<Term>, s: string)
    requires Matches(a + b, s, false)
    ensures exists k :: MatchesAt(a, b, s, k)
    decreases |a|
  {
    if a == [] {
      assert a + b == b && s[0..] == s;
      assert MatchesAt(a, b, s, 0);
    } else {
      assert (a + b)[0] == a[0] && (a + b)[1..] == a[1..] + b;
      var i := 1;
      if a[0].Star? {
        i :| 0 <= i <= |s| && SEPARATOR !in s[..i] && Matches(a[1..] + b, s[i..], false);
      }
      SplitsSomewhere(a[1..], b, s[i..]);
      var k :| MatchesAt(a[1..], b, s[i..], k);
      assert s[i..][..k] == s[..i + k][i..] && s[i..][k..] == s[i + k..] && s[..i + k][..i] == s[..i];
      assert MatchesAt(a, b, s, i + k);
    }
  }

  lemma {:induction false} JoinsAgain(a: seq<Term>, b: seq<Term>, s: string, k: int)
    requires MatchesAt(a, b, s, k)
    ensures Matches(a + b, s, false)
    decreases |a|
  {
    if a == [] {
      assert a + b == b && s[0..] == s;
    } else {
      assert (a + b)[0] == a[0] && (a + b)[1..] == a[1..] + b;
      var i := 1;
      if a[0].Star? {
        i :| 0 <= i <= k && SEPARATOR !in s[..k][..i] && Matches(a[1..], s[..k][i..], false);
      }
      assert s[..k][i..] == s[i..][..k - i] && s[i..][k - i..] == s[k..] && s[..k][..i] == s[..i];
      JoinsAgain(a[1..], b, s[i..], k - i);
    }
  }

  lemma SplitAtSeparator(d: seq<Term>, f: seq<Term>, p: string, i: nat)
    requires i < |p| && p[i] == SEPARATOR
    ensures MatchesAt(d, [Lit(SEPARATOR)] + f, p, i) <==> Matches(d, p[..i], false) && Matches(f, p[i + 1..], false)
  {
    hide Matches;
    SeparatorThenElement(f, p[i..]);
    assert p[i..][1..] == p[i + 1..];
  }

  lemma SplitOnlyAtLastSeparator(d: seq<Term>, f: seq<Term>, p: string, k: int)
    requires WithinElement(f) && OneElement(f) && MatchesAt(d, [Lit(SEPARATOR)] + f, p, k)
    ensures k == LastSeparator(p)
  {
    hide Matches, WithinElement, LastSeparator, OneElement;
    SeparatorThenElement(f, p[k..]);
    OneElementMatches(f, p[k..][1..]);
    assert p[k..][1..] == p[k + 1..];
    LastSeparatorIs(p, k);
  }

  /** If the pattern splits the path anywhere it splits it at the last separator. */
  lemma SplitsAtLastSeparator(d: seq<Term>, f: seq<Term>, p: string)
    requires WithinElement(f) && OneElement(f)
    ensures Matches(d + ([Lit(SEPARATOR)] + f), p, false) <==>
      LastSeparator(p) >= 0 && MatchesAt(d, [Lit(SEPARATOR)] + f, p, LastSeparator(p))
  {
    hide Matches, WithinElement, LastSeparator, OneElement;
    MatchesConcat(d, [Lit(SEPARATOR)] + f, p);
    forall k | MatchesAt(d, [Lit(SEPARATOR)] + f, p, k) ensures k == LastSeparator(p) {
      SplitOnlyAtLastSeparator(d, f, p, k);
    }
  }

  /** A pattern that ends in an element of its own matches a path exactly when what is before the last separator
      matches the path's directory and the last element matches its name. */
  lemma MatchSplitsAtLastSeparator(d: seq<Term>, f: seq<Term>, p: string)
    requires WithinElement(f) && OneElement(f)
    ensures Matches(d + ([Lit(SEPARATOR)] + f), p, false) <==>
      LastSeparator(p) >= 0 && Matches(d, Parent(p), false) && Matches(f, Base(p), false)
  {
    hide Matches, WithinElement, LastSeparator, OneElement, MatchesAt;
    SplitsAtLastSeparator(d, f, p);
    if LastSeparator(p) >= 0 {
      SplitAtSeparator(d, f, p, LastSeparator(p));
    }
  }

  lemma LevelsAround(p: string, i: nat)
    requires i < |p| && p[i] == SEPARATOR
    ensures Levels(p) == Levels(p[..i]) + 1 + Levels(p[i + 1..])
  {
    assert p == p[..i] + ([p[i]] + p[i + 1..]);
    LevelsConcat(p[..i], [p[i]] + p[i + 1..]);
    LevelsConcat([p[i]], p[i + 1..]);
    assert Levels([SEPARATOR]) == 1;
  }

  lemma LiteralsAround(d: seq<Term>, f: seq<Term>)
    requires OneElement(f)
    ensures Literals(d + ([Lit(SEPARATOR)] + f)) == Literals(d) + 1 && Literals(f) == 0
  {
    LiteralsConcat(d, [Lit(SEPARATOR)] + f);
    LiteralsConcat([Lit(SEPARATOR)], f);
    assert Lit(SEPARATOR) !in multiset(f);
  }

  lemma NoLevelsNoDirectory(p: string)
    ensures Levels(p) == 0 <==> LastSeparator(p) < 0
  {
    NoLevels(p);
  }

  /** With no separator taken by a class the pattern splits the path at its last separator, whatever the classes accept. */
  lemma PathSplitsAtLastSeparator(d: seq<Term>, f: seq<Term>, p: string)
    requires OneElement(f)
    ensures MatchesPath(d + ([Lit(SEPARATOR)] + f), p) <==>
      LastSeparator(p) >= 0 && MatchesPath(d, Parent(p)) && Matches(f, Base(p), false)
  {
    hide Matches, LastSeparator, OneElement, Levels, Literals, MatchesAt;
    MatchesConcat(d, [Lit(SEPARATOR)] + f, p);
    LiteralsAround(d, f);
    if LastSeparator(p) >= 0 {
      SplitAtSeparator(d, f, p, LastSeparator(p));
      LevelsAround(p, LastSeparator(p));
      BaseIsOneLevel(p);
    }
    if MatchesPath(d + ([Lit(SEPARATOR)] + f), p) {
      var k :| MatchesAt(d, [Lit(SEPARATOR)] + f, p, k);
      SplitIsAtLastSeparator(d, f, p, k);
    }
  }

  lemma BaseIsOneLevel(p: string)
    ensures Levels(Base(p)) == 0
  {
    NoLevels(Base(p));
    assert forall j :: 0 <= j < |Base(p)| ==> Base(p)[j] == p[LastSeparator(p) + 1 + j];
  }

  lemma SplitIsAtLastSeparator(d: seq<Term>, f: seq<Term>, p: string, k: int)
    requires MatchesAt(d, [Lit(SEPARATOR)] + f, p, k) && Levels(p) == Literals(d) + 1
    ensures k == LastSeparator(p) >= 0
  {
    hide Matches, LastSeparator, Levels, Literals;
    SeparatorThenElement(f, p[k..]);
    MatchHasTheLiterals(d, p[..k], false);
    LevelsAround(p, k);
    NoLevels(p[k + 1..]);
    LastSeparatorIs(p, k);
  }

  lemma SeparatorThenElement(f: seq<Term>, s: string)
    ensures Matches([Lit(SEPARATOR)] + f, s, false) <==> s != "" && s[0] == SEPARATOR && Matches(f, s[1..], false)
  {
    assert ([Lit(SEPARATOR)] + f)[1..] == f;
  }

  // ----- Literal patterns -----

  /** hasGlobMeta. */
  predicate HasGlobMeta(p: string) {
    exists i :: 0 <= i < |p| && IsMeta(p[i])
  }

  predicate IsMeta(c: char) {
    c == '*' || c == '?' || c == '['
  }

  lemma {:induction false} LiteralMatchesItself(p: string, s: string)
    requires !HasGlobMeta(p)
    ensures Parse(p).ok && (Matches(Parse(p).terms, s, false) <==> s == p)
  {
    if p != "" {
      assert !IsMeta(p[0]);
      forall i | 0 <= i < |p[1..]| ensures !IsMeta(p[1..][i]) {
        assert !IsMeta(p[i + 1]);
      }
      if s != "" {
        LiteralMatchesItself(p[1..], s[1..]);
        assert s == [s[0]] + s[1..] && p == [p[0]] + p[1..];
      } else {
        LiteralMatchesItself(p[1..], s);
      }
      assert Parse(p).terms[1..] == Parse(p[1..]).terms;
    }
  }

  /** A literal pattern matches itself level by level. */
  lemma LiteralIsItsPath(p: string, s: string)
    requires !HasGlobMeta(p)
    ensures Parse(p).ok && (MatchesPath(Parse(p).terms, s) <==> s == p)
  {
    hide Parse, Matches, Levels, Literals;
    LiteralMatchesItself(p, s);
    LiteralMatchesItself(p, p);
    LiteralTerms(p);
    MatchHasTheLiterals(Parse(p).terms, p, false);
  }

  lemma {:induction false} LiteralTerms(p: string)
    requires !HasGlobMeta(p)
    ensures WithinElement(Parse(p).terms) && forall i :: 0 <= i < |Parse(p).terms| ==> Parse(p).terms[i].Lit?
  {
    if p != "" {
      assert !IsMeta(p[0]);
      forall i | 0 <= i < |p[1..]| ensures !IsMeta(p[1..][i]) {
        assert !IsMeta(p[i + 1]);
      }
      LiteralTerms(p[1..]);
      assert Parse(p).terms == [Lit(p[0])] + Parse(p[1..]).terms;
    }
  }

  // ----- How the traversal splits a pattern -----

  /** splitLastSep: after the last separator, which stays on the directory part. */
  function SplitLastSep(p: string): (string, string) {
    if LastSeparator(p) < 0 then ("", p) else (p[..LastSeparator(p) + 1], p[LastSeparator(p) + 1..])
  }

  /** cleanGlobDir: a directory part as a path the traversal can look up. */
  function CleanGlobDir(dir: string): string {
    if dir == "" then "."
    else if dir == [SEPARATOR] then dir
    else dir[..|dir| - 1]
  }

  function DirOf(p: string): string {
    CleanGlobDir(SplitLastSep(p).0)
  }

  /** The last separator among the first `n` terms, or -1. */
  function LastLiteralBefore(ts: seq<Term>, n: nat): (i: int)
    requires n <= |ts|
    ensures -1 <= i < n && (i >= 0 ==> ts[i] == Lit(SEPARATOR))
    ensures forall j :: i < j < n ==> ts[j] != Lit(SEPARATOR)
  {
    if n == 0 then -1
    else if ts[n - 1] == Lit(SEPARATOR) then n - 1
    else LastLiteralBefore(ts, n - 1)
  }

  function LastLiteral(ts: seq<Term>): (i: int)
    ensures -1 <= i < |ts| && (i >= 0 ==> ts[i] == Lit(SEPARATOR))
    ensures forall j :: i < j < |ts| ==> ts[j] != Lit(SEPARATOR)
  {
    LastLiteralBefore(ts, |ts|)
  }

  function LastElement(ts: seq<Term>): (f: seq<Term>)
    ensures OneElement(f)
  {
    if LastLiteral(ts) < 0 then ts else ts[LastLiteral(ts) + 1..]
  }

  function Directory(ts: seq<Term>): seq<Term>
    requires LastLiteral(ts) >= 0
  {
    ts[..LastLiteral(ts)]
  }

  lemma NoSeparatorNoSplit(p: string)
    requires SEPARATOR !in p
    ensures LastSeparator(p) < 0
  {
  }

  lemma SplittableParts(ts: seq<Term>, lo: int, hi: int)
    requires Splittable(ts) && 0 <= lo <= hi <= |ts|
    ensures Splittable(ts[lo..hi])
  {
    forall i | 0 <= i < |ts[lo..hi]| ensures ts[lo..hi][i] == ts[lo + i] && WellFormedTerm(ts[lo + i]) {
    }
  }

  lemma ElementsAreSplittable(ts: seq<Term>)
    requires Splittable(ts)
    ensures Splittable(LastElement(ts))
    ensures LastLiteral(ts) >= 0 ==> Splittable(Directory(ts))
  {
    hide Splittable, LastLiteral, OneElement;
    var i := LastLiteral(ts);
    if i >= 0 {
      SplittableParts(ts, i + 1, |ts|);
      assert ts[i + 1..|ts|] == ts[i + 1..];
      SplittableParts(ts, 0, i);
      assert ts[0..i] == ts[..i];
    }
  }

  lemma PatternOfElements(ts: seq<Term>)
    ensures if LastLiteral(ts) < 0 then ts == LastElement(ts) else ts == Directory(ts) + ([Lit(SEPARATOR)] + LastElement(ts))
  {
    hide LastLiteral, OneElement;
  }

  /** A pattern matches a path by its last element and by what comes before the last separator. */
  lemma MatchesByElement(ts: seq<Term>, p: string)
    ensures LastLiteral(ts) < 0 ==> LastElement(ts) == ts
    ensures LastLiteral(ts) < 0 ==> (MatchesPath(ts, p) <==> LastSeparator(p) < 0 && Matches(ts, p, false))
    ensures LastLiteral(ts) >= 0 ==> (MatchesPath(ts, p) <==>
      LastSeparator(p) >= 0 && MatchesPath(Directory(ts), Parent(p)) && Matches(LastElement(ts), Base(p), false))
  {
    hide *;
    PatternOfElements(ts);
    if LastLiteral(ts) < 0 {
      OneElementIsOneLevel(ts, p);
    } else {
      PathSplitsAtLastSeparator(Directory(ts), LastElement(ts), p);
    }
  }

  lemma OneElementIsOneLevel(ts: seq<Term>, p: string)
    requires LastElement(ts) == ts
    ensures MatchesPath(ts, p) <==> LastSeparator(p) < 0 && Matches(ts, p, false)
  {
    hide Matches, LastSeparator;
    NoLevelsNoDirectory(p);
    assert Lit(SEPARATOR) !in multiset(ts);
  }

  /** The text of a splittable pattern is split where its terms are. */
  lemma SplitIsByElement(ts: seq<Term>)
    requires Splittable(ts)
    ensures SplitLastSep(Render(ts)) ==
      (if LastLiteral(ts) < 0 then "" else Render(Directory(ts)) + [SEPARATOR], Render(LastElement(ts)))
  {
    hide Splittable, LastLiteral, OneElement, Render, LastElement, Directory, LastSeparator;
    PatternOfElements(ts);
    ElementsAreSplittable(ts);
    OneElementRendered(LastElement(ts));
    if LastLiteral(ts) >= 0 {
      RenderedAround(Directory(ts), LastElement(ts));
    } else {
      NoSeparatorNoSplit(Render(ts));
    }
  }

  lemma RenderedAround(d: seq<Term>, f: seq<Term>)
    requires SEPARATOR !in Render(f)
    ensures SplitLastSep(Render(d + ([Lit(SEPARATOR)] + f))) == (Render(d) + [SEPARATOR], Render(f))
  {
    hide Render, LastSeparator;
    RenderConcat(d, [Lit(SEPARATOR)] + f);
    RenderConcat([Lit(SEPARATOR)], f);
    RenderSeparator();
    var p := Render(d) + ([SEPARATOR] + Render(f));
    assert p[|Render(d)| + 1..] == Render(f);
    assert p[..|Render(d)| + 1] == Render(d) + [SEPARATOR];
    LastSeparatorIs(p, |Render(d)|);
  }

  /** A splittable pattern's text has as many separators as the pattern has literal ones. */
  lemma {:induction false} LevelsOfText(ts: seq<Term>)
    requires Splittable(ts)
    ensures Levels(Render(ts)) == Literals(ts)
  {
    hide Levels, Literals;
    if ts == [] {
      NothingHasLevels();
    } else {
      SplittableParts(ts, 1, |ts|);
      assert ts[1..|ts|] == ts[1..] && ts == [ts[0]] + ts[1..];
      LevelsOfText(ts[1..]);
      LevelsConcat(RenderTerm(ts[0]), Render(ts[1..]));
      LiteralsConcat([ts[0]], ts[1..]);
      LevelsOfTerm(ts[0]);
    }
  }

  lemma LevelsOfTerm(t: Term)
    requires t.Class? ==> SEPARATOR !in RenderTerm(t)
    ensures Levels(RenderTerm(t)) == Literals([t])
  {
    NoLevels(RenderTerm(t));
  }

  lemma RenderSeparator()
    ensures Render([Lit(SEPARATOR)]) == [SEPARATOR]
  {
    assert Render([]) == "";
  }
}
