/** The patterns of a traversal, and the directory and file parts it takes them apart into. */
module GlobPatterns {
  import opened Wrappers
  import opened Pattern
  import opened Matcher
  import opened MatchTheorems
  import opened Paths
  import opened PathPatterns

  predicate IsNormal(normalize: bool, q: string) {
    normalize ==> '/' !in q && !LeadsWithDot(q)
  }

  lemma NormalChangesNothing(normalize: bool, q: string)
    requires IsNormal(normalize, q)
    ensures Normal(normalize, q) == q
  {
    assert normalize ==> Slashes(q) == q;
  }

  lemma NormalIsNormalHere(normalize: bool, p: string)
    ensures IsNormal(normalize, Normal(normalize, p)) && |Normal(normalize, p)| <= |p|
  {
    NormalIsNormal(p);
    WithoutDotsHasNone(Slashes(p));
  }

  /** The pattern is well formed, and no class is written with a separator. */
  predicate Regular(q: string) {
    Parse(q).ok && Splittable(Parse(q).terms)
  }

  /** And it does not name the root as ".", which normalisation rules out. */
  predicate Globbable(q: string) {
    Regular(q) && !LeadsWithDot(q)
  }

  function FileOf(q: string): string {
    SplitLastSep(q).1
  }

  lemma PartsOfPattern(q: string)
    ensures var i := LastSeparator(q);
      if i < 0 then DirOf(q) == "." && FileOf(q) == q
      else DirOf(q) == (if i == 0 then [SEPARATOR] else q[..i]) && FileOf(q) == q[i + 1..]
  {
    hide LastSeparator;
    var i := LastSeparator(q);
    if i >= 0 {
      assert q[..i + 1][..i] == q[..i] && q[..i + 1][i] == SEPARATOR;
    }
  }

  lemma PartIsNormal(normalize: bool, q: string, part: string)
    requires IsNormal(normalize, q) && forall k :: 0 <= k < |part| ==> part[k] in q
    requires LeadsWithDot(part) ==> LeadsWithDot(q)
    ensures IsNormal(normalize, part)
  {
  }

  /** The file part of a normalised pattern is normalised, and so is the directory part; where that has wildcards
      it is shorter than the pattern, so that the traversal never meets a fixed point. */
  lemma PartsOfNormal(normalize: bool, q: string)
    requires IsNormal(normalize, q)
    ensures IsNormal(normalize, FileOf(q)) && IsNormal(normalize, DirOf(q))
    ensures HasGlobMeta(DirOf(q)) ==> |DirOf(q)| < |q|
    ensures DirOf(q) != ""
    ensures DirOf(q) == "." ==> LastSeparator(q) < 0 || LeadsWithDot(q)
    ensures LeadsWithDot(DirOf(q)) ==> LeadsWithDot(q)
  {
    hide LastSeparator, DirOf, FileOf, IsNormal;
    var i := LastSeparator(q);
    PartsOfPattern(q);
    if i < 0 {
      OneCharacterIsNormal(normalize, '.');
    } else {
      var file := q[i + 1..];
      assert forall k :: 0 <= k < |file| ==> file[k] == q[i + 1 + k] != SEPARATOR;
      PartIsNormal(normalize, q, file);
      if i == 0 {
        OneCharacterIsNormal(normalize, SEPARATOR);
      } else {
        PartIsNormal(normalize, q, q[..i]);
      }
    }
  }

  lemma OneCharacterIsNormal(normalize: bool, c: char)
    requires c != '/' && !IsMeta(c)
    ensures IsNormal(normalize, [c]) && !HasGlobMeta([c])
  {
  }

  lemma RendersAs(q: string)
    requires Regular(q)
    ensures q == Render(Parse(q).terms)
  {
    ParsedIsWellFormed(q);
  }

  lemma {:induction false} RenderedIsNotEmpty(ts: seq<Term>)
    requires WellFormed(ts) && ts != []
    ensures Render(ts) != ""
  {
  }

  /** The directory part of a pattern is a pattern of its own, whose terms are those before the last separator. */
  lemma DirectoryPart(q: string)
    requires Regular(q) && LastLiteral(Parse(q).terms) >= 0
    ensures var d := Directory(Parse(q).terms);
      if d == [] then DirOf(q) == [SEPARATOR]
      else Regular(DirOf(q)) && Parse(DirOf(q)) == Parsed(d, true) && (!LeadsWithDot(q) ==> Globbable(DirOf(q)) && DirOf(q) != ".")
  {
    hide Render, Parse, LastLiteral, Directory, LastSeparator, Splittable;
    RendersAs(q);
    var ts := Parse(q).terms;
    SplitIsByElement(ts);
    ElementsAreSplittable(ts);
    PartsOfNormal(false, q);
    var d := Directory(ts);
    assert SplitLastSep(q).0 == Render(d) + [SEPARATOR];
    if d == [] {
      RenderNothing();
    } else {
      SplittableIsWellFormed(d);
      RenderedIsNotEmpty(d);
      ParseInvertsRender(d);
      assert (Render(d) + [SEPARATOR])[..|Render(d)|] == Render(d);
    }
  }

  lemma RenderNothing()
    ensures Render([]) == ""
  {
  }

  lemma SplittableIsWellFormed(ts: seq<Term>)
    requires Splittable(ts)
    ensures WellFormed(ts)
  {
  }

  /** Matching a name against the last element never fails, and is exact for what a directory lists: names without
      a separator. */
  lemma ElementDecides(normalize: bool, q: string, name: string)
    requires Regular(q) && IsNormal(normalize, q)
    ensures var verdict := Outcome(Normal(normalize, FileOf(q)), name);
      && verdict != BadPattern
      && (SEPARATOR !in name ==> verdict == if Matches(LastElement(Parse(q).terms), name, false) then Matched else Unmatched)
  {
    hide Render, Parse, LastLiteral, LastElement, LastSeparator, Splittable, Outcome, Matches, Directory;
    hide SplitLastSep, WellFormed, OneElement, Normal, LeadsWithDot;
    RendersAs(q);
    var ts := Parse(q).terms;
    SplitIsByElement(ts);
    ElementsAreSplittable(ts);
    PartsOfNormal(normalize, q);
    NormalChangesNothing(normalize, FileOf(q));
    SplittableIsWellFormed(LastElement(ts));
    MatchDecidesTheGrammar(LastElement(ts), name);
  }

  lemma RootPattern(q: string)
    requires Regular(q) && LastLiteral(Parse(q).terms) < 0
    ensures DirOf(q) == "."
  {
    hide Render, Parse, LastLiteral, LastElement, LastSeparator, Splittable, Directory, SplitLastSep;
    RendersAs(q);
    SplitIsByElement(Parse(q).terms);
  }

  lemma WildIsRegular(q: string)
    requires Regular(q) && HasGlobMeta(DirOf(q))
    ensures Regular(DirOf(q))
  {
    hide Parse, Splittable, LastSeparator, DirOf, LastLiteral, Directory, LeadsWithDot;
    assert !HasGlobMeta(".") && !HasGlobMeta([SEPARATOR]);
    if LastLiteral(Parse(q).terms) < 0 {
      RootPattern(q);
    } else {
      DirectoryPart(q);
    }
  }

  lemma SplitOf(d: string, f: string)
    requires SEPARATOR !in f && d != ""
    ensures DirOf(d + [SEPARATOR] + f) == d && FileOf(d + [SEPARATOR] + f) == f
  {
    hide LastSeparator;
    var q := d + [SEPARATOR] + f;
    assert q[|d| + 1..] == f && q[..|d| + 1] == d + [SEPARATOR] && (d + [SEPARATOR])[..|d|] == d;
    LastSeparatorIs(q, |d|);
  }

  // ----- Patterns put together of their parts -----

  lemma {:induction false} TermTextIsInText(ts: seq<Term>, i: nat)
    requires i < |ts|
    ensures forall k :: 0 <= k < |RenderTerm(ts[i])| ==> RenderTerm(ts[i])[k] in Render(ts)
  {
    hide RenderTerm;
    if i > 0 {
      TermTextIsInText(ts[1..], i - 1);
    }
  }

  lemma WithoutSeparatorIsRegular(f: string)
    requires Parse(f).ok && SEPARATOR !in f
    ensures Regular(f)
  {
    hide RenderTerm;
    ParsedIsWellFormed(f);
    var ts := Parse(f).terms;
    forall i | 0 <= i < |ts| && ts[i].Class? ensures SEPARATOR !in RenderTerm(ts[i]) {
      TermTextIsInText(ts, i);
    }
  }

  lemma LiteralIsRegular(p: string)
    requires !HasGlobMeta(p)
    ensures Regular(p)
  {
    hide Parse, RenderTerm;
    LiteralMatchesItself(p, p);
    LiteralTerms(p);
    ParsedIsWellFormed(p);
  }

  lemma RegularConcat(a: string, b: string)
    requires Regular(a) && Regular(b)
    ensures Regular(a + b)
  {
    hide Parse, Render, RenderTerm;
    var s, t := Parse(a).terms, Parse(b).terms;
    ParsedIsWellFormed(a);
    ParsedIsWellFormed(b);
    RenderConcat(s, t);
    ParseInvertsRender(s + t);
  }

  /** A pattern whose directory part is regular, and whose file part parses, is regular. */
  lemma PartsMakeRegular(q: string)
    requires Regular(DirOf(q)) && Parse(FileOf(q)).ok
    ensures Regular(q)
  {
    hide Regular, Parse, LastSeparator, DirOf, FileOf;
    var i := LastSeparator(q);
    PartsOfPattern(q);
    if i >= 0 {
      assert forall k :: 0 <= k < |FileOf(q)| ==> FileOf(q)[k] == q[i + 1 + k];
    }
    WithoutSeparatorIsRegular(FileOf(q));
    if i >= 0 {
      LiteralIsRegular([SEPARATOR]);
      RegularConcat([SEPARATOR], FileOf(q));
      assert i == 0 ==> q == [SEPARATOR] + FileOf(q);
      if i > 0 {
        RegularConcat(DirOf(q), [SEPARATOR] + FileOf(q));
        assert q == DirOf(q) + ([SEPARATOR] + FileOf(q));
      }
    }
  }

  // ----- Where a traversal starts -----

  /** The path the traversal starts from: the directory part before the first wildcard, or a literal pattern itself. */
  function LiteralPart(q: string): string
    decreases |q|
  {
    PartsOfNormal(false, q);
    if HasGlobMeta(DirOf(q)) then LiteralPart(DirOf(q))
    else if HasGlobMeta(q) then DirOf(q)
    else q
  }

  /** What the traversal takes a pattern for: with its directory part "." taken for the root, the rest of it. */
  function Taken(q: string): string {
    if LeadsWithDot(q) && LiteralPart(q) == "." then q[2..] else q
  }

  lemma DirectoryOfLiteral(q: string)
    requires !HasGlobMeta(q)
    ensures !HasGlobMeta(DirOf(q))
  {
    hide LastSeparator, DirOf;
    PartsOfPattern(q);
    forall k | 0 <= k < |DirOf(q)| ensures !IsMeta(DirOf(q)[k]) {
      if LastSeparator(q) > 0 {
        assert !IsMeta(q[k]);
      }
    }
  }

  lemma LiteralStartsItself(q: string)
    requires !HasGlobMeta(q)
    ensures LiteralPart(q) == q && Taken(q) == q
  {
    hide HasGlobMeta, DirOf;
    DirectoryOfLiteral(q);
  }

  lemma DirectoryLeadsWithDot(q: string)
    requires LeadsWithDot(q) && DirOf(q) != "."
    ensures LeadsWithDot(DirOf(q))
  {
    hide LastSeparator, DirOf;
    LastSeparatorAfterDot(q);
    PartsOfPattern(q);
    assert q[..1] == ".";
  }

  lemma LastSeparatorAfterDot(q: string)
    requires LeadsWithDot(q)
    ensures LastSeparator(q) >= 1
    ensures LastSeparator(q[2..]) == if LastSeparator(q) == 1 then -1 else if LastSeparator(q) == 2 then 0 else LastSeparator(q) - 2
  {
    hide LastSeparator;
    var i, r := LastSeparator(q), q[2..];
    if i >= 2 {
      var after := r[i - 1..];
      assert forall k :: 0 <= k < |after| ==> after[k] == q[i + 1 + k];
      LastSeparatorIs(r, i - 2);
    } else {
      assert forall k :: 0 <= k < |r| ==> r[k] == q[2 + k];
    }
  }

  lemma SlicesAfterDot(q: string, i: nat)
    requires 2 <= i < |q|
    ensures q[..i][2..] == q[2..][..i - 2] && q[2..][i - 1..] == q[i + 1..]
  {
  }

  /** The parts of the rest are the rest of the parts. */
  lemma PartsAfterDot(q: string)
    requires LeadsWithDot(q)
    ensures HasGlobMeta(DirOf(q)) ==>
      LeadsWithDot(DirOf(q)) && DirOf(q[2..]) == DirOf(q)[2..] && FileOf(q[2..]) == FileOf(q) && HasGlobMeta(DirOf(q[2..]))
    ensures DirOf(q) == "." ==> DirOf(q[2..]) == "." && FileOf(q[2..]) == FileOf(q) == q[2..]
  {
    hide LastSeparator, DirOf, FileOf;
    LastSeparatorAfterDot(q);
    PartsOfPattern(q);
    PartsOfPattern(q[2..]);
    var i := LastSeparator(q);
    if HasGlobMeta(DirOf(q)) {
      var k :| 0 <= k < i && IsMeta(q[k]);
      SlicesAfterDot(q, i);
      assert i >= 3 && DirOf(q)[2..][k - 2] == DirOf(q)[k];
    } else if DirOf(q) == "." {
      assert |DirOf(q)| == i == 1;
    }
  }

  lemma {:induction false} RestHasNoDot(q: string)
    requires LeadsWithDot(q) && LiteralPart(q) == "."
    ensures !LeadsWithDot(q[2..])
    decreases |q|
  {
    hide LastSeparator, DirOf, FileOf;
    PartsAfterDot(q);
    PartsOfPattern(q);
    PartsOfNormal(false, q);
    LastSeparatorAfterDot(q);
    if HasGlobMeta(DirOf(q)) {
      RestHasNoDot(DirOf(q));
      assert DirOf(q) == q[..LastSeparator(q)];
    }
  }

  /** The element after "." has a wildcard. */
  predicate WildNext(q: string) {
    exists k :: 2 <= k < |q| && WildAt(q, k)
  }

  predicate WildAt(q: string, k: nat)
    requires 2 <= k < |q|
  {
    IsMeta(q[k]) && SEPARATOR !in q[2..k]
  }

  /** The root is what "." is taken for exactly where the next element has a wildcard. */
  lemma {:induction false} DotIsTakenExactly(q: string)
    requires LeadsWithDot(q)
    ensures Taken(q) != q <==> WildNext(q)
    ensures LiteralPart(q) == "." <==> WildNext(q)
    decreases |q|
  {
    hide LastSeparator, DirOf, WildAt, HasGlobMeta;
    LastSeparatorAfterDot(q);
    PartsOfPattern(q);
    PartsOfNormal(false, q);
    if HasGlobMeta(DirOf(q)) {
      PartsAfterDot(q);
      DotIsTakenExactly(DirOf(q));
      WildNextOfDirectory(q, LastSeparator(q));
    } else {
      WildInLastElement(q, LastSeparator(q));
    }
  }

  lemma WildNextOfDirectory(q: string, i: nat)
    requires 2 <= i < |q| && q[i] == SEPARATOR
    ensures WildNext(q) <==> WildNext(q[..i])
  {
    forall k | 2 <= k < i ensures WildAt(q, k) <==> WildAt(q[..i], k) {
      assert q[..i][2..k] == q[2..k];
    }
    forall k | i <= k < |q| ensures !WildAt(q, k) {
      assert k > i ==> q[2..k][i - 2] == SEPARATOR;
    }
  }

  lemma WildInLastElement(q: string, i: nat)
    requires LeadsWithDot(q) && 1 <= i < |q| && q[i] == SEPARATOR && !HasGlobMeta(q[..i])
    requires forall k :: i < k < |q| ==> q[k] != SEPARATOR
    ensures WildNext(q) <==> i == 1 && HasGlobMeta(q)
  {
    assert forall k :: 0 <= k < i ==> q[..i][k] == q[k];
    if i == 1 && HasGlobMeta(q) {
      var k :| 0 <= k < |q| && IsMeta(q[k]);
      assert WildAt(q, k);
    }
    forall k | 2 <= k < |q| && i >= 2 ensures !WildAt(q, k) {
      assert k > i ==> q[2..k][i - 2] == SEPARATOR;
    }
  }

  lemma ParseAfterDot(q: string)
    requires LeadsWithDot(q)
    ensures Parse(q) == Parsed([Lit('.'), Lit(SEPARATOR)] + Parse(q[2..]).terms, Parse(q[2..]).ok)
  {
    assert q[1..][1..] == q[2..];
    assert Parse(q[1..]) == Parsed([Lit(SEPARATOR)] + Parse(q[2..]).terms, Parse(q[2..]).ok);
    assert [Lit('.')] + ([Lit(SEPARATOR)] + Parse(q[2..]).terms) == [Lit('.'), Lit(SEPARATOR)] + Parse(q[2..]).terms;
  }

  lemma TakenIsGlobbable(q: string)
    requires Regular(q) && LeadsWithDot(q) && LiteralPart(q) == "."
    ensures Globbable(q[2..])
  {
    hide Parse, LiteralPart, RenderTerm;
    RestHasNoDot(q);
    ParseAfterDot(q);
    var ts, rest := Parse(q).terms, Parse(q[2..]).terms;
    SplittableParts(ts, 2, |ts|);
    assert ts[2..|ts|] == rest;
  }

  /** A pattern that leads with "." matches only paths that do. */
  lemma DotMatchesDot(q: string, p: string)
    requires LeadsWithDot(q) && Matches(Parse(q).terms, p, false)
    ensures LeadsWithDot(p)
  {
    hide Parse;
    ParseAfterDot(q);
    var ts := Parse(q).terms;
    assert ts[0] == Lit('.') && ts[1..][0] == Lit(SEPARATOR);
  }
}
