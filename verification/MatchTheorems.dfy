/** The greedy matcher decides the declarative relation: leftmost choices lose no match. */
module MatchTheorems {
  import opened Wrappers
  import opened Pattern
  import opened Matcher

  // ----- What the matcher should decide -----

  /** A malformed pattern counts up to its last star before the defect: what follows is the malformed segment. */
  function UpToLastStar(ts: seq<Term>): seq<Term> {
    if Fixed(ts) then [] else [ts[0]] + UpToLastStar(ts[1..])
  }

  function WellFormedPart(d: Parsed): seq<Term> {
    if d.ok then d.terms else UpToLastStar(d.terms)
  }

  /** A well-formed pattern matches all of `s`, or the well-formed segments of a malformed one reach the first
      malformed one: they match some beginning of `s`. */
  predicate Reached(d: Parsed, s: string) {
    Matches(WellFormedPart(d), s, !d.ok)
  }

  /** No class accepts the separator, which neither '*' nor '?' ever does. */
  predicate WithinElement(ts: seq<Term>) {
    forall i :: 0 <= i < |ts| ==> !Crosses(ts[i])
  }

  predicate Crosses(t: Term) {
    t.Class? && Accepts(t, SEPARATOR)
  }

  predicate BetweenStars(ts: seq<Term>, i: nat)
    requires i < |ts|
  {
    Star in ts[..i] && Star in ts[i + 1..]
  }

  /** How many separators a name, or a pattern's text, has. */
  function Levels(s: string): nat {
    multiset(s)[SEPARATOR]
  }

  /** How many literal separators a pattern has. */
  function Literals(ts: seq<Term>): nat {
    multiset(ts)[Lit(SEPARATOR)]
  }

  /** No class that has a star before it and a star after it accepts the separator, or the name has no more
      separators than the pattern has literal ones, which leaves none for the classes. */
  predicate Separable(ts: seq<Term>, s: string) {
    (forall i :: 0 <= i < |ts| && BetweenStars(ts, i) ==> !Crosses(ts[i])) || Levels(s) <= Literals(ts)
  }

  // ----- Counting separators -----

  lemma LevelsConcat(a: string, b: string)
    ensures Levels(a + b) == Levels(a) + Levels(b)
  {
  }

  lemma LiteralsConcat(a: seq<Term>, b: seq<Term>)
    ensures Literals(a + b) == Literals(a) + Literals(b)
  {
  }

  lemma NoLevels(s: string)
    ensures Levels(s) == 0 <==> SEPARATOR !in s
  {
    assert SEPARATOR in s <==> SEPARATOR in multiset(s);
  }

  lemma NothingHasLevels()
    ensures Levels("") == Literals([]) == 0
  {
  }

  /** The terms match, and each separator is matched by a literal one: never one by a class. */
  predicate MatchesPath(ts: seq<Term>, p: string) {
    Matches(ts, p, false) && Levels(p) == Literals(ts)
  }

  /** What a pattern matches has at least its literal separators, and no others unless a class accepts the separator. */
  lemma {:induction false} MatchHasTheLiterals(ts: seq<Term>, s: string, open: bool)
    requires Matches(ts, s, open)
    ensures Levels(s) >= Literals(ts)
    ensures WithinElement(ts) && !open ==> Levels(s) == Literals(ts)
  {
    hide Levels, Literals;
    if ts == [] {
      NothingHasLevels();
    } else {
      var k := 1;
      if ts[0].Star? {
        k :| 0 <= k <= |s| && SEPARATOR !in s[..k] && Matches(ts[1..], s[k..], open);
      }
      MatchHasTheLiterals(ts[1..], s[k..], open);
      assert s == s[..k] + s[k..] && ts == [ts[0]] + ts[1..];
      LevelsConcat(s[..k], s[k..]);
      LiteralsConcat([ts[0]], ts[1..]);
      FirstTermHasTheLiteral(ts[0], s[..k]);
      assert WithinElement(ts) ==> WithinElement(ts[1..]) && !Crosses(ts[0]) by {
        assert forall i :: 0 <= i < |ts[1..]| ==> ts[1..][i] == ts[i + 1];
      }
    }
  }

  lemma FirstTermHasTheLiteral(t: Term, s: string)
    requires if t.Star? then SEPARATOR !in s else |s| == 1 && Accepts(t, s[0])
    ensures Levels(s) >= Literals([t]) && (!Crosses(t) ==> Levels(s) == Literals([t]))
  {
    NoLevels(s);
    if !t.Star? {
      assert s == [s[0]];
    }
  }

  /** Where a segment fits, with no separator before it, the rest of the name has at most the separators that are
      not the segment's. */
  lemma LevelsAfter(c: seq<Term>, s: string, i: nat)
    requires i + |c| <= |s| && SEPARATOR !in s[..i] && Fixed(c) && FixedMatch(c, s[i..])
    ensures Levels(s[i + |c|..]) + Literals(c) <= Levels(s)
  {
    hide Levels, Literals, Fixed, FixedMatch;
    var here := s[i..i + |c|];
    assert s == s[..i] + (here + s[i + |c|..]);
    LevelsConcat(s[..i], here + s[i + |c|..]);
    LevelsConcat(here, s[i + |c|..]);
    NoLevels(s[..i]);
    FixedIsMatch(c, s[i..]);
    assert s[i..][..|c|] == here;
    MatchHasTheLiterals(c, here, false);
  }

  lemma FixedIsMatch(c: seq<Term>, s: string)
    requires Fixed(c) && FixedMatch(c, s)
    ensures Matches(c, s[..|c|], false)
  {
    FixedThenRest(c, [], s[..|c|], false);
    assert c + [] == c && s[..|c|][|c|..] == "";
  }

  // ----- How a pattern parses around its first segment -----

  function StarTerms(n: nat): seq<Term> {
    if n == 0 then [] else [Star] + StarTerms(n - 1)
  }

  lemma OneStarMore(n: nat, ts: seq<Term>)
    requires n > 0
    ensures StarTerms(n) + ts == [Star] + (StarTerms(n - 1) + ts)
  {
  }

  lemma {:induction false} StarsParse(n: nat, y: string)
    ensures Parse(Stars(n) + y) == Parsed(StarTerms(n) + Parse(y).terms, Parse(y).ok)
  {
    hide ParseTerm, Parse;
    if n == 0 {
      assert "" + y == y && [] + Parse(y).terms == Parse(y).terms;
    } else {
      StarsParse(n - 1, y);
      StarFirst(Stars(n) + y);
      assert (Stars(n) + y)[1..] == Stars(n - 1) + y;
      OneStarMore(n, Parse(y).terms);
    }
  }

  lemma PartAfterStar(ts: seq<Term>, ok: bool)
    ensures WellFormedPart(Parsed([Star] + ts, ok)) == [Star] + WellFormedPart(Parsed(ts, ok))
  {
    var more := [Star] + ts;
    assert more[0] == Star && more[1..] == ts;
    if !ok && Fixed(ts) {
      assert UpToLastStar(ts) == [];
    }
  }

  lemma {:induction false} PartAfterStars(n: nat, ts: seq<Term>, ok: bool)
    ensures WellFormedPart(Parsed(StarTerms(n) + ts, ok)) == StarTerms(n) + WellFormedPart(Parsed(ts, ok))
  {
    hide WellFormedPart;
    if n == 0 {
      assert [] + ts == ts;
    } else {
      PartAfterStars(n - 1, ts, ok);
      PartAfterStar(StarTerms(n - 1) + ts, ok);
      OneStarMore(n, ts);
      OneStarMore(n, WellFormedPart(Parsed(ts, ok)));
    }
  }

  lemma {:induction false} PartAfterSegment(c: seq<Term>, d: Parsed)
    requires Fixed(c) && (d.ok || !Fixed(d.terms))
    ensures WellFormedPart(Parsed(c + d.terms, d.ok)) == c + WellFormedPart(d)
  {
    if c == [] {
      assert c + d.terms == d.terms;
    } else {
      PartAfterSegment(c[1..], d);
      var ts := c + d.terms;
      assert ts[0] == c[0] && ts[1..] == c[1..] + d.terms;
      assert [c[0]] + (c[1..] + WellFormedPart(d)) == c + WellFormedPart(d);
      assert !d.ok ==> Star in ts;
    }
  }

  lemma {:induction false} StarsAreOne(n: nat, ts: seq<Term>, s: string, open: bool)
    requires n > 0
    ensures Matches(StarTerms(n) + ts, s, open) <==> Matches([Star] + ts, s, open)
  {
    if n == 1 {
      assert StarTerms(1) == [Star];
    } else {
      StarsAreOne(n - 1, ts, s, open);
      var more := StarTerms(n - 2) + ts;
      assert StarTerms(n) + ts == [Star, Star] + more && StarTerms(n - 1) + ts == [Star] + more;
      TwoStarsAreOne(more, s, open);
    }
  }

  /** After its segment a pattern ends or goes on with a star. */
  lemma RestBeginsWithStar(rest: string)
    requires rest != "" ==> rest[0] == '*'
    ensures var d := Parse(rest);
      if rest == "" then d == Parsed([], true)
      else !Fixed(d.terms) && WellFormedPart(d) != [] && WellFormedPart(d)[0] == Star
  {
    if rest != "" {
      StarFirst(rest);
      assert Parse(rest).terms[0] == Star;
    }
  }

  /** The segment fits at some place where, after it, the rest matches. */
  ghost predicate FitsSomewhere(star: bool, c: seq<Term>, ts: seq<Term>, s: string, open: bool) {
    exists i :: FitsAt(star, c, ts, s, open, i)
  }

  ghost predicate FitsAt(star: bool, c: seq<Term>, ts: seq<Term>, s: string, open: bool, i: int) {
    && 0 <= i <= |s| - |c| && (!star ==> i == 0) && SEPARATOR !in s[..i]
    && FixedMatch(c, s[i..]) && Matches(ts, s[i + |c|..], open)
  }

  lemma StarThenSegment(n: nat, c: seq<Term>, ts: seq<Term>, s: string, open: bool)
    requires Fixed(c)
    ensures Matches(StarTerms(n) + (c + ts), s, open) <==> FitsSomewhere(n > 0, c, ts, s, open)
  {
    hide Fixed, FixedMatch;
    if n == 0 {
      assert StarTerms(0) + (c + ts) == c + ts && s[0..] == s;
      FixedThenRest(c, ts, s, open);
      FixedFitsIn(c, s);
      if FixedMatch(c, s) && Matches(ts, s[|c|..], open) {
        assert FitsAt(false, c, ts, s, open, 0);
      }
    } else {
      StarsAreOne(n, c + ts, s, open);
      assert ([Star] + (c + ts))[1..] == c + ts;
      forall k | 0 <= k <= |s| && SEPARATOR !in s[..k]
        ensures Matches(c + ts, s[k..], open) <==> FitsAt(true, c, ts, s, open, k)
      {
        FixedThenRest(c, ts, s[k..], open);
        FixedFitsIn(c, s[k..]);
        assert k + |c| <= |s| ==> s[k..][|c|..] == s[k + |c|..];
      }
    }
  }

  lemma FixedFitsIn(c: seq<Term>, s: string)
    ensures FixedMatch(c, s) ==> |c| <= |s|
  {
  }

  // ----- The exchange argument -----

  /** A segment that fits twice, with no separator before the later place, holds no separator at the later place. */
  lemma {:induction false} NoSeparatorThere(c: seq<Term>, s: string, i: nat, j: nat, t: nat)
    requires i < j && j + |c| <= |s| && t < |c| && SEPARATOR !in s[..j]
    requires Fixed(c) && WithinElement(c) && FixedMatch(c, s[i..]) && FixedMatch(c, s[j..])
    ensures s[j + t] != SEPARATOR
    decreases t
  {
    if s[j + t] == SEPARATOR {
      assert Accepts(c[t], s[j..][t]) && Accepts(c[t], s[i..][t]) && !Crosses(c[t]);
      assert s[i + t] == SEPARATOR;
      assert s[i + t] in s[..j] || i + t >= j;
      NoSeparatorThere(c, s, i, j, i + t - j);
    }
  }

  /** No separator that the segment's classes could take: they accept none, or the name has none left for them. */
  predicate Confined(c: seq<Term>, ts: seq<Term>, s: string) {
    WithinElement(c) || Levels(s) <= Literals(c + ts)
  }

  /** With no separator to spare, none lies between where the two fits end. */
  lemma NoSeparatorBetween(c: seq<Term>, ts: seq<Term>, s: string, open: bool, i: nat, j: nat)
    requires i <= j && j + |c| <= |s| && SEPARATOR !in s[..j] && Levels(s) <= Literals(c + ts)
    requires Fixed(c) && FixedMatch(c, s[i..]) && Matches(ts, s[j + |c|..], open)
    ensures SEPARATOR !in s[i + |c|..j + |c|]
  {
    hide Levels, Literals, Fixed, FixedMatch, Matches;
    LiteralsConcat(c, ts);
    assert SEPARATOR !in s[..i] by {
      assert s[..i] == s[..j][..i];
    }
    LevelsAfter(c, s, i);
    MatchHasTheLiterals(ts, s[j + |c|..], open);
    assert s[i + |c|..] == s[i + |c|..j + |c|] + s[j + |c|..];
    LevelsConcat(s[i + |c|..j + |c|], s[j + |c|..]);
    NoLevels(s[i + |c|..j + |c|]);
  }

  /** Where a later fit lets the rest match, an earlier one does: the star that follows absorbs the difference. */
  lemma StarSlides(c: seq<Term>, ts: seq<Term>, s: string, open: bool, i: nat, j: nat)
    requires i <= j && j + |c| <= |s| && SEPARATOR !in s[..j]
    requires Fixed(c) && Confined(c, ts, s) && FixedMatch(c, s[i..]) && FixedMatch(c, s[j..])
    requires ts != [] && ts[0] == Star && Matches(ts, s[j + |c|..], open)
    ensures Matches(ts, s[i + |c|..], open)
  {
    hide FixedMatch, Fixed, WithinElement, Levels, Literals;
    if i < j {
      var a, b := s[i + |c|..], s[j + |c|..];
      var k :| 0 <= k <= |b| && SEPARATOR !in b[..k] && Matches(ts[1..], b[k..], open);
      var l := k + j - i;
      assert a[l..] == b[k..];
      if !WithinElement(c) {
        NoSeparatorBetween(c, ts, s, open, i, j);
      }
      forall q | 0 <= q < l ensures a[..l][q] != SEPARATOR {
        if i + |c| + q < j + |c| {
          assert a[..l][q] == s[i + |c|..j + |c|][q];
          if WithinElement(c) {
            if i + |c| + q < j {
              assert s[..j][i + |c| + q] != SEPARATOR;
            } else {
              NoSeparatorThere(c, s, i, j, i + |c| + q - j);
            }
          }
        } else {
          assert a[..l][q] == b[..k][q - (j - i)];
        }
      }
    }
  }

  /** The first place decides: whether the segment fits somewhere with the rest matching is
      whether the rest matches after the first place it fits. */
  lemma FirstPlaceDecides(star: bool, c: seq<Term>, ts: seq<Term>, s: string, last: bool, open: bool)
    requires Fixed(c)
    requires if last then ts == [] && !open else ts != [] && ts[0] == Star
    ensures match Fit(star, c, s, last)
      case None => !FitsSomewhere(star, c, ts, s, open)
      case Some(k) =>
        && k + |c| <= |s|
        && (Matches(ts, s[k + |c|..], open) ==> FitsSomewhere(star, c, ts, s, open))
        && ((star && !last ==> Confined(c, ts, s)) && FitsSomewhere(star, c, ts, s, open) ==> Matches(ts, s[k + |c|..], open))
  {
    hide FixedMatch, Fixed, WithinElement, FirstFit;
    FirstFitIsFirst(c, s, last, 0);
    FitIsWithin(star, c, s, last);
    assert s[0..] == s;
    var fit := Fit(star, c, s, last);
    if fit.Some? && Matches(ts, s[fit.value + |c|..], open) {
      assert s[..fit.value] == s[0..fit.value];
      assert FitsAt(star, c, ts, s, open, fit.value);
    }
    if FitsSomewhere(star, c, ts, s, open) {
      var i :| FitsAt(star, c, ts, s, open, i);
      assert s[..i] == s[0..i];
      assert last ==> |s| - i == |c|;
      if fit.Some? && star && !last && Confined(c, ts, s) {
        assert fit.value <= i;
        StarSlides(c, ts, s, open, fit.value, i);
      }
    }
  }

  // ----- The matcher is right -----

  lemma SeparableParts(n: nat, c: seq<Term>, ts: seq<Term>, s: string, k: nat)
    requires Separable(StarTerms(n) + (c + ts), s) && (ts != [] ==> ts[0] == Star)
    requires k + |c| <= |s| && SEPARATOR !in s[..k] && Fixed(c) && FixedMatch(c, s[k..])
    ensures n > 0 && ts != [] ==> Confined(c, ts, s)
    ensures Separable(ts, s[k + |c|..])
  {
    hide Crosses, Levels, Literals, Fixed, FixedMatch;
    StarTermsAreStars(n);
    var all, m := StarTerms(n) + (c + ts), n + |c|;
    LiteralsConcat(StarTerms(n), c + ts);
    LiteralsConcat(c, ts);
    StarsAreNotLiterals(n);
    LevelsAfter(c, s, k);
    if Levels(s) > Literals(all) {
      forall i | 0 <= i < |c| && n > 0 && ts != [] ensures !Crosses(c[i]) {
        assert all[n + i] == c[i] && all[..n + i][0] == Star && all[n + i + 1..][|c| - i - 1] == Star;
        assert BetweenStars(all, n + i);
      }
      forall i | 0 <= i < |ts| && BetweenStars(ts, i) ensures !Crosses(ts[i]) {
        assert all[m + i] == ts[i] && all[m + i + 1..] == ts[i + 1..] && all[..m + i][m..] == ts[..i];
        assert BetweenStars(all, m + i);
      }
    }
  }

  lemma StarsAreNotLiterals(n: nat)
    ensures Literals(StarTerms(n)) == 0
  {
    StarTermsAreStars(n);
    assert Lit(SEPARATOR) !in StarTerms(n);
  }

  lemma {:induction false} StarTermsAreStars(n: nat)
    ensures |StarTerms(n)| == n && forall i :: 0 <= i < n ==> StarTerms(n)[i] == Star
  {
    if n > 0 {
      StarTermsAreStars(n - 1);
    }
  }

  /** One segment of a pattern, in terms of what the pattern parses as. */
  lemma ReachedBySegment(p: string, s: string) returns (n: nat)
    requires p != ""
    ensures var piece, d := Split(p), Parse(p);
      var c, r := Parse(piece.chunk), Parse(piece.rest);
      && (piece.star <==> n > 0) && Fixed(c.terms)
      && (piece.star && piece.chunk == "" ==> d.ok && (Reached(d, s) <==> SEPARATOR !in s))
      && (!c.ok ==> !d.ok && Reached(d, s))
      && (c.ok ==> d.ok == r.ok && WellFormedPart(d) == StarTerms(n) + (c.terms + WellFormedPart(r)))
      && (c.ok ==> (Reached(d, s) <==> FitsSomewhere(piece.star, c.terms, WellFormedPart(r), s, !r.ok)))
      && (if piece.rest == "" then WellFormedPart(r) == [] && r.ok else WellFormedPart(r) != [] && WellFormedPart(r)[0] == Star)
  {
    hide Split, StarsInClasses, InClass, Fixed, FitsSomewhere;
    n := SplitRebuilds(p);
    var piece := Split(p);
    var c, r := Parse(piece.chunk), Parse(piece.rest);
    SegmentParses(piece.chunk, piece.rest);
    StarsParse(n, piece.chunk + piece.rest);
    RestBeginsWithStar(piece.rest);
    PartAfterStars(n, Parse(piece.chunk + piece.rest).terms, Parse(piece.chunk + piece.rest).ok);
    if c.ok {
      PartAfterSegment(c.terms, r);
      StarThenSegment(n, c.terms, WellFormedPart(r), s, !r.ok);
      if n > 0 && piece.chunk == "" {
        OnlyStars(n, s, false);
      }
    } else if n > 0 {
      OnlyStars(n, s, true);
      assert StarTerms(n) + [] == StarTerms(n);
    }
  }

  lemma OnlyStars(n: nat, s: string, open: bool)
    requires n > 0
    ensures Matches(StarTerms(n), s, open) <==> open || SEPARATOR !in s
    ensures StarTerms(n) + ([] + []) == StarTerms(n)
  {
    StarsAreOne(n, [], s, open);
    assert StarTerms(n) + [] == StarTerms(n) && [Star] + [] == [Star];
    assert s[..|s|] == s && s[..0] == "";
    if open {
      assert Matches([Star][1..], s[0..], open);
    } else if SEPARATOR !in s {
      assert Matches([Star][1..], s[|s|..], open);
    }
  }

  /** A match is reported only where there is one, and a bad pattern only for a malformed pattern whose well-formed
      part is reached; and both always are, unless a class between two stars accepts the separator and the name has
      more separators than the pattern has literal ones. */
  lemma {:induction false} GreedyIsRight(p: string, s: string)
    ensures var d := Parse(p);
      && (Outcome(p, s) == Matched ==> d.ok && Reached(d, s))
      && (Outcome(p, s) == BadPattern ==> !d.ok && Reached(d, s))
      && (Separable(WellFormedPart(d), s) && Reached(d, s) ==> Outcome(p, s) == if d.ok then Matched else BadPattern)
    decreases |p|
  {
    hide Split, Parse, Reached, WellFormedPart, Fit, Separable, Fixed, FitsSomewhere;
    if p == "" {
      EmptyPattern(s);
    } else {
      RestIsShorter(p);
      var n := ReachedBySegment(p, s);
      var piece := Split(p);
      var c, r, d := Parse(piece.chunk), Parse(piece.rest), Parse(p);
      if !(piece.star && piece.chunk == "") && c.ok {
        FirstPlaceDecides(piece.star, c.terms, WellFormedPart(r), s, piece.rest == "", !r.ok);
        var fit := Fit(piece.star, c.terms, s, piece.rest == "");
        if fit.Some? {
          var k := fit.value + |c.terms|;
          GreedyIsRight(piece.rest, s[k..]);
          ReachedMeans(r, s[k..]);
          if Separable(WellFormedPart(d), s) {
            FitIsWithin(piece.star, c.terms, s, piece.rest == "");
            SeparableParts(n, c.terms, WellFormedPart(r), s, fit.value);
          }
        }
      }
    }
  }

  lemma EmptyPattern(s: string)
    ensures Parse("") == Parsed([], true) && (Reached(Parse(""), s) <==> s == "")
  {
  }

  lemma ReachedMeans(d: Parsed, s: string)
    ensures Reached(d, s) <==> Matches(WellFormedPart(d), s, !d.ok)
  {
  }

  // ----- What callers rely on -----

  /** For a well-formed pattern no error is reported, what is reported as a match is one, and every match is
      reported unless a class between two stars had to take one of the name's separators. */
  lemma MatchDecidesTheGrammar(ts: seq<Term>, s: string)
    requires WellFormed(ts)
    ensures Outcome(Render(ts), s) != BadPattern
    ensures Outcome(Render(ts), s) == Matched ==> Matches(ts, s, false)
    ensures Separable(ts, s) ==> (Outcome(Render(ts), s) == Matched <==> Matches(ts, s, false))
  {
    hide Outcome, Matches, Separable;
    ParseInvertsRender(ts);
    GreedyIsRight(Render(ts), s);
  }

  lemma OneTermDecides(t: Term, c: char)
    requires WellFormedTerm(t) && t != Star
    ensures Outcome(RenderTerm(t), [c]) == if Accepts(t, c) then Matched else Unmatched
  {
    assert Render([t]) == RenderTerm(t) by {
      assert [t][1..] == [];
    }
    assert Matches([t], [c], false) <==> Accepts(t, c) by {
      assert [t][1..] == [] && [c][1..] == "";
    }
    hide Outcome, RenderTerm, Accepts;
    MatchDecidesTheGrammar([t], [c]);
  }

  /** What single elements of a pattern stand for. */
  lemma OneCharacter(lo: char, hi: char, c: char)
    requires lo !in "-]^" && hi !in "-]"
    ensures Outcome("?", [c]) == Matched <==> c != '\\'
    ensures Outcome("[" + [lo, '-', hi] + "]", [c]) == Matched <==> lo <= c <= hi
    ensures Outcome("[^" + [lo, '-', hi] + "]", [c]) == Matched <==> !(lo <= c <= hi)
    ensures Outcome("[" + [lo] + "]", [c]) == Matched <==> c == lo
    ensures lo !in "*?[" ==> (Outcome([lo], [c]) == Matched <==> c == lo)
  {
    var wide, one := Range(lo, hi, true), Range(lo, lo, false);
    OneRange(wide, c);
    OneRange(one, c);
    hide Outcome;
    OneTermDecides(Any, c);
    OneTermDecides(Class(false, [wide]), c);
    OneTermDecides(Class(true, [wide]), c);
    OneTermDecides(Class(false, [one]), c);
    if lo !in "*?[" {
      OneTermDecides(Lit(lo), c);
    }
  }

  lemma OneRange(r: Range, c: char)
    ensures InSome([r], c) <==> r.lo <= c <= r.hi
    ensures RenderRanges([r]) == RenderRange(r) + "]"
    ensures RenderTerm(Class(false, [r])) == "[" + RenderRange(r) + "]"
    ensures RenderTerm(Class(true, [r])) == "[^" + RenderRange(r) + "]"
  {
    assert [r][1..] == [] && [r][0] == r;
    assert r.lo <= c <= r.hi ==> [r][0].lo <= c <= [r][0].hi;
    assert "[" + ("^" + (RenderRange(r) + "]")) == "[^" + RenderRange(r) + "]";
    assert "[" + ("" + (RenderRange(r) + "]")) == "[" + RenderRange(r) + "]";
  }

  /** A star stands for any run of characters without a separator. */
  lemma OneStar(s: string)
    ensures Outcome("*", s) == Matched <==> '\\' !in s
  {
    hide Outcome;
    assert Render([Star]) == "*" by {
      assert [Star][1..] == [];
    }
    assert StarTerms(1) == [Star] by {
      assert StarTerms(0) == [];
    }
    OnlyStars(1, s, false);
    MatchDecidesTheGrammar([Star], s);
  }

  /** The error is reported only for a pattern that the grammar does not yield. */
  lemma BadPatternsAreBad(p: string, s: string, ts: seq<Term>)
    requires Outcome(p, s) == BadPattern && WellFormed(ts)
    ensures Render(ts) != p
  {
    ParseInvertsRender(ts);
    GreedyIsRight(p, s);
  }

  /** A pattern that the grammar does not yield is reported exactly when its well-formed segments reach the malformed
      one; one whose first segment is malformed always is. */
  lemma BadPatternIsReportedWhenReached(p: string, s: string)
    requires forall ts :: WellFormed(ts) ==> Render(ts) != p
    ensures Outcome(p, s) == BadPattern ==> Matches(UpToLastStar(Parse(p).terms), s, true)
    ensures Separable(UpToLastStar(Parse(p).terms), s) ==>
      (Outcome(p, s) == BadPattern <==> Matches(UpToLastStar(Parse(p).terms), s, true))
    ensures Fixed(Parse(p).terms) ==> Outcome(p, s) == BadPattern
  {
    hide Outcome;
    if Parse(p).ok {
      ParsedIsWellFormed(p);
    }
    GreedyIsRight(p, s);
  }

  /** A well-formed pattern is split between terms, never inside a class: its leading stars, the terms up to the next
      star, and the rest. */
  lemma SplitsBetweenTerms(ts: seq<Term>) returns (n: nat, c: seq<Term>, rest: seq<Term>)
    requires WellFormed(ts) && ts != []
    ensures ts == StarTerms(n) + (c + rest) && Fixed(c)
    ensures if c == [] then rest == [] else rest != [] ==> rest[0] == Star
    ensures Split(Render(ts)) == Piece(n > 0, Render(c), Render(rest))
    ensures Parse(Render(c)) == Parsed(c, true)
  {
    hide Split, StarsInClasses, InClass;
    ParseInvertsRender(ts);
    var p := Render(ts);
    n := SplitRebuilds(p);
    var piece := Split(p);
    SegmentParses(piece.chunk, piece.rest);
    StarsParse(n, piece.chunk + piece.rest);
    RestBeginsWithStar(piece.rest);
    c, rest := Parse(piece.chunk).terms, Parse(piece.rest).terms;
    ParsedIsWellFormed(piece.chunk);
    ParsedIsWellFormed(piece.rest);
    if rest != [] {
      assert WellFormedPart(Parse(piece.rest)) == rest;
    }
  }

  /** The decomposition is the only one, where the pattern begins with one star followed by one term. */
  lemma OneTermSegment(t: Term, more: seq<Term>, n: nat, c: seq<Term>, rest: seq<Term>)
    requires [Star, t] + more == StarTerms(n) + (c + rest) && Fixed(c) && t != Star && (more != [] ==> more[0] == Star)
    requires if c == [] then rest == [] else rest != [] ==> rest[0] == Star
    ensures n == 1 && c == [t] && rest == more
  {
    var ts := [Star, t] + more;
    StarTermsAreStars(n);
    assert forall i :: 0 <= i < |ts| ==> ts[i] == if i < n then Star else if i < n + |c| then c[i - n] else rest[i - n - |c|];
    assert ts[0] == Star && ts[1] == t && (more != [] ==> ts[2] == Star);
    assert n == 1 && |c| == 1;
    assert more == ts[2..] == rest;
  }

  // ----- Where the code falls short of its documentation -----

  lemma ParseShort()
    ensures Parse("a*[") == Parsed([Lit('a'), Star], false)
  {
    assert "a*["[1..] == "*[" && "*["[1..] == "[" && "["[1..] == "";
    assert ParseTerm("[") == None;
    assert Parse("[") == Parsed([], false) && Parse("*[") == Parsed([Star], false);
  }

  /** A malformed pattern whose defect is not reached is not reported: "a*[" against every name that
      does not begin with 'a', the empty name among them. */
  lemma UnreachedDefectIsNotReported(s: string)
    requires s == "" || s[0] != 'a'
    ensures forall ts :: WellFormed(ts) ==> Render(ts) != "a*["
    ensures Outcome("a*[", s) == Unmatched
  {
    hide Outcome, Render, Parse;
    ParseShort();
    forall ts | WellFormed(ts) ensures Render(ts) != "a*[" {
      ParseInvertsRender(ts);
    }
    GreedyIsRight("a*[", s);
    assert [Lit('a'), Star][0] == Lit('a') && Star in [Lit('a'), Star];
    assert UpToLastStar([Lit('a'), Star])[0] == Lit('a');
  }

  const NOT_A: Term := Class(true, [Range('a', 'a', false)])

  /** A class between two stars that accepts the separator can make the leftmost choice the wrong one:
      "*[^a]*b" should match "x\\yb" and does not. */
  lemma LeftmostChoiceMissesAMatch()
    ensures var ts, s := [Star, NOT_A, Star, Lit('b')], "x\\yb";
      WellFormed(ts) && Matches(ts, s, false) && Outcome(Render(ts), s) == Unmatched
  {
    hide Parse, Render, Split, Matches;
    var ts, s := [Star, NOT_A, Star, Lit('b')], "x\\yb";
    MatchesAcrossTheSeparator();
    LeftmostStopsAtTheSeparator();
    var n, c, rest := SplitsBetweenTerms(ts);
    assert ts == [Star, NOT_A] + [Star, Lit('b')];
    OneTermSegment(NOT_A, [Star, Lit('b')], n, c, rest);
    NotAAccepts();
    assert FixedMatch(c, s[0..]) && s[1..] == "\\yb";
  }

  lemma NotAAccepts()
    ensures Accepts(NOT_A, 'x') && Accepts(NOT_A, SEPARATOR)
  {
  }

  lemma StarTakes(run: string, rest: string, ts: seq<Term>)
    requires SEPARATOR !in run && Matches(ts, rest, false)
    ensures Matches([Star] + ts, run + rest, false)
  {
    assert ([Star] + ts)[1..] == ts && (run + rest)[..|run|] == run && (run + rest)[|run|..] == rest;
  }

  lemma OneTakes(t: Term, c: char, rest: string, ts: seq<Term>)
    requires Accepts(t, c) && Matches(ts, rest, false)
    ensures Matches([t] + ts, [c] + rest, false)
  {
    assert ([t] + ts)[1..] == ts && ([c] + rest)[1..] == rest;
  }

  lemma StarTermStar(t: Term, a: string, c: char, b: string, d: char)
    requires SEPARATOR !in a && SEPARATOR !in b && Accepts(t, c)
    ensures Matches([Star, t, Star, Lit(d)], a + ([c] + (b + ([d] + ""))), false)
  {
    OneTakes(Lit(d), d, "", []);
    hide Matches, Accepts;
    assert [Lit(d)] + [] == [Lit(d)];
    StarTakes(b, [d] + "", [Lit(d)]);
    assert [Star] + [Lit(d)] == [Star, Lit(d)];
    OneTakes(t, c, b + ([d] + ""), [Star, Lit(d)]);
    assert [t] + [Star, Lit(d)] == [t, Star, Lit(d)];
    StarTakes(a, [c] + (b + ([d] + "")), [t, Star, Lit(d)]);
    assert [Star] + [t, Star, Lit(d)] == [Star, t, Star, Lit(d)];
  }

  lemma MatchesAcrossTheSeparator()
    ensures Matches([Star, NOT_A, Star, Lit('b')], "x\\yb", false)
  {
    hide Matches;
    NotAAccepts();
    StarTermStar(NOT_A, "x", SEPARATOR, "y", 'b');
    assert "x" + ([SEPARATOR] + ("y" + (['b'] + ""))) == "x\\yb";
  }

  lemma LeftmostStopsAtTheSeparator()
    ensures Outcome(Render([Star, Lit('b')]), "\\yb") == Unmatched
  {
    var ts := [Star, Lit('b')];
    var n, c, rest := SplitsBetweenTerms(ts);
    assert ts == [Star, Lit('b')] + [];
    OneTermSegment(Lit('b'), [], n, c, rest);
  }
}
