/** The matcher: greedy, with every star's choice made once and never revisited. */
module Matcher {
  import opened Wrappers
  import opened Pattern

  // ----- Normalisation -----

  function Slashes(p: string): string {
    seq(|p|, i requires 0 <= i < |p| => if p[i] == '/' then SEPARATOR else p[i])
  }

  predicate LeadsWithDot(p: string) {
    |p| >= 2 && p[0] == '.' && p[1] == SEPARATOR
  }

  function WithoutDots(p: string): string {
    if LeadsWithDot(p) then WithoutDots(p[2..]) else p
  }

  /** The pattern as it is matched; `normalize` is the library's NORMALIZE_PATH setting. */
  function Normal(normalize: bool, p: string): string {
    if normalize then WithoutDots(Slashes(p)) else p
  }

  method NormPattern(normalize: bool, pattern: string) returns (r: string)
    ensures r == Normal(normalize, pattern)
  {
    if !normalize {
      return pattern;
    }
    r := Slashes(pattern);
    while LeadsWithDot(r)
      invariant WithoutDots(r) == WithoutDots(Slashes(pattern))
      decreases |r|
    {
      r := r[2..];
    }
  }

  lemma {:induction false} WithoutDotsHasNone(p: string)
    ensures !LeadsWithDot(WithoutDots(p)) && |WithoutDots(p)| <= |p|
    ensures WithoutDots(p) == p[|p| - |WithoutDots(p)|..]
  {
    if LeadsWithDot(p) {
      WithoutDotsHasNone(p[2..]);
    }
  }

  /** Normalising again changes nothing, and leaves no forward slash. */
  lemma NormalIsNormal(p: string)
    ensures '/' !in Normal(true, p) && !LeadsWithDot(Normal(true, p))
    ensures Normal(true, Normal(true, p)) == Normal(true, p)
  {
    WithoutDotsHasNone(Slashes(p));
    var n := Normal(true, p);
    forall i | 0 <= i < |n| ensures n[i] != '/' {
      assert n[i] == Slashes(p)[|Slashes(p)| - |n| + i];
    }
    assert Slashes(n) == n;
  }

  /** A slash is written for a separator, leading ".\" elements count for nothing, and nothing else is changed. */
  lemma NormalisationMeans(a: string, b: string)
    ensures Normal(true, a + "/" + b) == Normal(true, a + "\\" + b)
    ensures Normal(true, ".\\" + a) == Normal(true, a)
    ensures '/' !in a && !(".\\" <= a) ==> Normal(true, a) == a
  {
    assert Slashes(a + "/" + b) == Slashes(a + "\\" + b);
    assert Slashes(".\\" + a)[2..] == Slashes(a);
    if '/' !in a {
      assert Slashes(a) == a;
      assert LeadsWithDot(a) ==> a[..2] == ".\\";
    }
  }

  ghost function SlashCount(p: string): nat {
    multiset(p)['/']
  }

  lemma FewerSlashes(p: string, i: nat)
    requires i < |p| && p[i] == '/'
    ensures p == p[..i] + "/" + p[i + 1..]
    ensures |p[..i] + "\\" + p[i + 1..]| == |p| && SlashCount(p[..i] + "\\" + p[i + 1..]) < SlashCount(p)
  {
    assert p == p[..i] + "/" + p[i + 1..];
  }

  /** There is no other way to do that. */
  lemma {:induction false} OnlyNormalFits(f: string -> string, p: string)
    requires forall a, b :: f(a + "/" + b) == f(a + "\\" + b)
    requires forall a :: f(".\\" + a) == f(a)
    requires forall a :: '/' !in a && !(".\\" <= a) ==> f(a) == a
    ensures f(p) == Normal(true, p)
    decreases |p|, SlashCount(p)
  {
    hide Normal, SlashCount;
    if '/' in p {
      var i :| 0 <= i < |p| && p[i] == '/';
      FewerSlashes(p, i);
      NormalisationMeans(p[..i], p[i + 1..]);
      OnlyNormalFits(f, p[..i] + "\\" + p[i + 1..]);
    } else if ".\\" <= p {
      assert p == ".\\" + p[2..];
      NormalisationMeans(p[2..], "");
      OnlyNormalFits(f, p[2..]);
    } else {
      NormalisationMeans(p, "");
    }
  }

  // ----- Splitting -----

  /** Where the segment that starts a pattern ends: at the first star outside a class. */
  function SegmentEnd(p: string, i: nat): (end: nat)
    requires i <= |p|
    ensures i <= end <= |p|
    ensures end < |p| ==> p[end] == '*' && !InClass(p[..end])
    ensures forall k :: i <= k < end && p[k] == '*' ==> InClass(p[..k])
    decreases |p| - i
  {
    if i == |p| || (p[i] == '*' && !InClass(p[..i])) then i else SegmentEnd(p, i + 1)
  }

  function WithoutStars(p: string): (r: string)
    ensures |r| <= |p| && (r == "" || r[0] != '*')
  {
    if p != "" && p[0] == '*' then WithoutStars(p[1..]) else p
  }

  datatype Piece = Piece(star: bool, chunk: string, rest: string)

  function Split(p: string): Piece {
    var q := WithoutStars(p);
    var end := SegmentEnd(q, 0);
    Piece(p != "" && p[0] == '*', q[..end], q[end..])
  }

  method SplitChunk(pattern: string) returns (star: bool, chunk: string, rest: string)
    ensures Piece(star, chunk, rest) == Split(pattern)
  {
    var p := pattern;
    star := false;
    while p != "" && p[0] == '*'
      invariant WithoutStars(p) == WithoutStars(pattern)
      invariant if star then pattern != "" && pattern[0] == '*' else p == pattern
      decreases |p|
    {
      star := true;
      p := p[1..];
    }
    var inClass := false;
    for i := 0 to |p|
      invariant inClass == InClass(p[..i]) && SegmentEnd(p, 0) == SegmentEnd(p, i)
    {
      assert p[..i + 1][..i] == p[..i];
      match p[i]
      case '[' => inClass := true;
      case ']' => inClass := false;
      case '*' =>
        if !inClass {
          return star, p[..i], p[i..];
        }
      case _ =>
    }
    return star, p, "";
  }

  function Stars(n: nat): string {
    if n == 0 then "" else "*" + Stars(n - 1)
  }

  lemma {:induction false} StarsInFront(p: string) returns (n: nat)
    ensures p == Stars(n) + WithoutStars(p) && (n > 0 <==> p != "" && p[0] == '*')
    decreases |p|
  {
    n := 0;
    if p != "" && p[0] == '*' {
      n := StarsInFront(p[1..]);
      n := n + 1;
      assert p == "*" + p[1..];
    }
  }

  /** The stars and the segment rebuild the pattern, and the split is not inside a class. */
  lemma SplitRebuilds(p: string) returns (n: nat)
    ensures var piece := Split(p);
      && p == Stars(n) + (piece.chunk + piece.rest) && (piece.star <==> n > 0)
      && StarsInClasses(piece.chunk)
      && (piece.rest != "" ==> piece.rest[0] == '*' && !InClass(piece.chunk))
      && (piece.chunk == "" ==> piece.rest == "")
  {
    n := StarsInFront(p);
    var q := WithoutStars(p);
    var end := SegmentEnd(q, 0);
    assert q == q[..end] + q[end..];
    forall k | 0 <= k < end && q[..end][k] == '*' ensures InClass(q[..end][..k]) {
      assert q[..end][..k] == q[..k];
    }
  }

  // ----- What the greedy choice computes -----

  /** The first place from `i` on, without crossing a separator, where the terms fit; the last terms must fit the end. */
  function FirstFit(c: seq<Term>, s: string, last: bool, i: nat): Option<nat>
    requires i <= |s|
    decreases |s| - i
  {
    if FixedMatch(c, s[i..]) && (last ==> |s| - i == |c|) then Some(i)
    else if i == |s| || s[i] == SEPARATOR then None
    else FirstFit(c, s, last, i + 1)
  }

  /** Whether a fixed segment fits here, or, after a star, where it first fits. */
  function Fit(star: bool, c: seq<Term>, s: string, last: bool): Option<nat> {
    if star then FirstFit(c, s, last, 0)
    else if FixedMatch(c, s) && (last ==> |s| == |c|) then Some(0)
    else None
  }

  datatype Verdict = Matched | Unmatched | BadPattern

  lemma RestIsShorter(p: string)
    requires p != ""
    ensures |Split(p).rest| < |p|
  {
    var n := SplitRebuilds(p);
    if n > 0 {
      assert Stars(n) != "";
    }
  }

  lemma FirstFitIsFirst(c: seq<Term>, s: string, last: bool, i: nat)
    requires i <= |s|
    ensures match FirstFit(c, s, last, i)
      case Some(k) => i <= k <= |s| && FixedMatch(c, s[k..]) && (last ==> |s| - k == |c|) && SEPARATOR !in s[i..k]
                      && forall j :: i <= j < k && FixedMatch(c, s[j..]) ==> last && |s| - j != |c|
      case None => forall j :: i <= j <= |s| && SEPARATOR !in s[i..j] && FixedMatch(c, s[j..]) ==> last && |s| - j != |c|
    decreases |s| - i
  {
    if !(FixedMatch(c, s[i..]) && (last ==> |s| - i == |c|)) && i < |s| && s[i] != SEPARATOR {
      FirstFitIsFirst(c, s, last, i + 1);
      forall j | i < j <= |s| ensures s[i..j] == [s[i]] + s[i + 1..j] {
      }
    }
  }

  lemma FitIsWithin(star: bool, c: seq<Term>, s: string, last: bool)
    ensures match Fit(star, c, s, last)
      case Some(k) => k + |c| <= |s| && FixedMatch(c, s[k..]) && SEPARATOR !in s[..k]
      case None => true
  {
    FirstFitIsFirst(c, s, last, 0);
    assert s[0..] == s;
    assert star && Fit(star, c, s, last).Some? ==> s[0..Fit(star, c, s, last).value] == s[..Fit(star, c, s, last).value];
  }

  /** The matcher's answer for a normalised pattern. */
  function Outcome(p: string, s: string): Verdict
    decreases |p|
  {
    if p == "" then (if s == "" then Matched else Unmatched)
    else
      var piece := Split(p);
      if piece.star && piece.chunk == "" then (if SEPARATOR !in s then Matched else Unmatched)
      else
        var c := Parse(piece.chunk);
        if !c.ok then BadPattern
        else match Fit(piece.star, c.terms, s, piece.rest == "")
          case None => Unmatched
          case Some(k) =>
            RestIsShorter(p);
            FitIsWithin(piece.star, c.terms, s, piece.rest == "");
            Outcome(piece.rest, s[k + |c.terms|..])
  }

  // ----- The code -----

  /** Reads a character class, whose opening bracket was read already, and says whether it accepts `r`. */
  method MatchClass(class_: string, r: char) returns (ok: bool, accepted: bool, rest: string)
    ensures ok <==> ParseClass(class_).Some?
    ensures ok ==> rest == ParseClass(class_).value.1 && accepted == Accepts(ParseClass(class_).value.0, r)
  {
    hide ParseRange;
    rest := class_;
    var negated := rest != "" && rest[0] == '^';
    if negated {
      rest := rest[1..];
    }
    ghost var start, got: seq<Range> := rest, [];
    var inRange, nranges := false, 0;
    assert forall rs: seq<Range> :: [] + rs == rs;
    while true
      invariant nranges == |got| && (inRange <==> InSome(got, r))
      invariant ParseRanges(start, false) ==
        match ParseRanges(rest, nranges > 0)
        case None => None
        case Some((rs, x)) => Some((got + rs, x))
      decreases |rest|
    {
      if rest != "" && rest[0] == ']' && nranges > 0 {
        assert got + [] == got;
        rest := rest[1..];
        break;
      }
      var range := ParseRange(rest);
      if range.None? {
        return false, false, "";
      }
      var (lohi, more) := range.value;
      MoreRanges(got, lohi, more, r);
      rest := more;
      if lohi.lo <= r <= lohi.hi {
        inRange := true;
      }
      got := got + [lohi];
      nranges := nranges + 1;
    }
    return true, inRange != negated, rest;
  }

  lemma MoreRanges(got: seq<Range>, next: Range, more: string, r: char)
    ensures InSome(got + [next], r) <==> InSome(got, r) || next.lo <= r <= next.hi
    ensures forall rs: seq<Range> :: (got + [next]) + rs == got + ([next] + rs)
  {
    if InSome(got, r) {
      var i :| 0 <= i < |got| && got[i].lo <= r <= got[i].hi;
      assert (got + [next])[i] == got[i];
    }
    assert (got + [next])[|got|] == next;
  }

  lemma TermsGoOn(done: seq<Term>, t: Term, s: string)
    ensures FixedMatch(done + [t], s) <==> FixedMatch(done, s) && |done| < |s| && Accepts(t, s[|done|])
  {
    assert (done + [t])[|done|] == t;
    if FixedMatch(done + [t], s) {
      forall i | 0 <= i < |done| ensures Accepts(done[i], s[i]) {
        assert (done + [t])[i] == done[i];
      }
    }
  }

  function Suffix(s: string, n: nat): string
    requires n <= |s|
  {
    if n == 0 then s else s[n..]
  }

  lemma SuffixStep(s: string, n: nat)
    requires n <= |s|
    ensures |Suffix(s, n)| == |s| - n && Suffix(s, n) == s[n..] && Suffix(s, 0) == s
    ensures n < |s| ==> Suffix(s, n)[0] == s[n] && Suffix(s, n)[1..] == Suffix(s, n + 1)
  {
  }

  lemma TermIsParsed(done: seq<Term>, p: string, all: Parsed)
    requires p != "" && all == Parsed(done + Parse(p).terms, Parse(p).ok)
    ensures ParseTerm(p).None? ==> !all.ok
    ensures ParseTerm(p).Some? ==>
      var (t, more) := ParseTerm(p).value;
      t in all.terms && all == Parsed((done + [t]) + Parse(more).terms, Parse(more).ok)
  {
    if ParseTerm(p).Some? {
      var (t, more) := ParseTerm(p).value;
      assert Parse(p).terms[0] == t && (done + Parse(p).terms)[|done|] == t;
      assert done + ([t] + Parse(more).terms) == (done + [t]) + Parse(more).terms;
    }
  }

  /** Matches a fixed segment against the beginning of `s`. After a mismatch the segment is still read on,
      so that a malformed one is always reported. */
  method MatchChunk(chunk: string, s: string) returns (rest: string, ok: bool, err: bool)
    requires Fixed(Parse(chunk).terms)
    ensures err <==> !Parse(chunk).ok
    ensures ok <==> Parse(chunk).ok && FixedMatch(Parse(chunk).terms, s)
    ensures ok ==> rest == s[|Parse(chunk).terms|..]
  {
    hide ParseClass, FixedMatch, Accepts, Suffix, Parse;
    SuffixStep(s, 0);
    NothingLeft(chunk);
    var p, failed := chunk, false;
    ghost var done: seq<Term> := [];
    rest := s;
    FixedMatchNothing(s);
    while p != ""
      invariant Parse(chunk) == Parsed(done + Parse(p).terms, Parse(p).ok)
      invariant failed <==> !FixedMatch(done, s)
      invariant !failed ==> |done| <= |s| && rest == Suffix(s, |done|)
      decreases |p|
    {
      ghost var prev, t := done, Star;
      TermIsParsed(done, p, Parse(chunk));
      if ParseTerm(p).Some? {
        t := ParseTerm(p).value.0;
        TermsGoOn(done, t, s);
      }
      if !failed {
        SuffixStep(s, |done|);
      }
      if !failed && |rest| == 0 {
        failed := true;
      }
      var accepted := false;
      match p[0] {
        case '[' =>
          var r := '\0';
          if !failed {
            r, rest := rest[0], rest[1..];
          }
          var closed, more;
          closed, accepted, more := MatchClass(p[1..], r);
          if !closed {
            return "", false, true;
          }
          done := done + [ParseTerm(p).value.0];
          p := more;
        case '?' =>
          if !failed {
            accepted := rest[0] != SEPARATOR;
            AcceptsAny(rest[0]);
            rest := rest[1..];
          }
          done := done + [Any];
          p := p[1..];
        case _ =>
          if !failed {
            accepted := p[0] == rest[0];
            AcceptsLit(p[0], rest[0]);
            rest := rest[1..];
          }
          done := done + [Lit(p[0])];
          p := p[1..];
      }
      assert !failed ==> accepted == Accepts(t, s[|prev|]);
      if !accepted {
        failed := true;
      }
    }
    if failed {
      return "", false, false;
    }
    SuffixStep(s, |done|);
    return rest, true, false;
  }

  lemma NothingLeft(chunk: string)
    ensures Parse("") == Parsed([], true)
    ensures Parsed([] + Parse(chunk).terms, Parse(chunk).ok) == Parse(chunk)
    ensures forall ts: seq<Term> :: ts + [] == ts
  {
  }

  lemma FixedMatchNothing(s: string)
    ensures FixedMatch([], s)
  {
  }

  lemma AcceptsAny(c: char)
    ensures Accepts(Any, c) <==> c != SEPARATOR
  {
  }

  lemma AcceptsLit(d: char, c: char)
    ensures Accepts(Lit(d), c) <==> d == c
  {
  }

  /** After a star: tries the segment at each later place within the current path element. */
  method Retry(chunk: string, s: string, last: bool) returns (found: bool, rest: string)
    requires Parse(chunk).ok && Fixed(Parse(chunk).terms)
    requires FixedMatch(Parse(chunk).terms, s) ==> last && |s| != |Parse(chunk).terms|
    ensures match FirstFit(Parse(chunk).terms, s, last, 0)
      case Some(k) => found && k + |Parse(chunk).terms| <= |s| && rest == s[k + |Parse(chunk).terms|..]
      case None => !found
  {
    ghost var c := Parse(chunk).terms;
    hide Parse, Fixed, FixedMatch;
    assert s[0..] == s;
    FitIsWithin(true, c, s, last);
    for i := 0 to |s|
      invariant FirstFit(c, s, last, 0) == FirstFit(c, s, last, i)
      invariant FixedMatch(c, s[i..]) ==> last && |s| - i != |c|
    {
      if s[i] == SEPARATOR {
        return false, "";
      }
      var ok, err;
      rest, ok, err := MatchChunk(chunk, s[i + 1..]);
      if ok {
        FixedFits(c, s[i + 1..]);
        if !(last && rest != "") {
          return true, rest;
        }
      }
    }
    return false, "";
  }

  lemma FixedFits(c: seq<Term>, s: string)
    requires FixedMatch(c, s)
    ensures |c| <= |s|
  {
  }

  /** Match: whether `pattern`, after normalisation, matches all of `name`. */
  method Match(normalize: bool, pattern: string, name: string) returns (verdict: Verdict)
    ensures verdict == Outcome(Normal(normalize, pattern), name)
  {
    hide Parse, FirstFit, FixedMatch, Split, Fixed;
    var p := NormPattern(normalize, pattern);
    var s := name;
    while p != ""
      invariant Outcome(p, s) == Outcome(Normal(normalize, pattern), name)
      decreases |p|
    {
      RestIsShorter(p);
      ghost var n := SplitRebuilds(p);
      var star, chunk, more := SplitChunk(p);
      if star && chunk == "" {
        return if SEPARATOR !in s then Matched else Unmatched;
      }
      SegmentParses(chunk, "");
      FirstPlace(Parse(chunk).terms, s, more == "");
      var rest, ok, err := MatchChunk(chunk, s);
      if ok && (rest == "" || more != "") {
        s, p := rest, more;
        continue;
      }
      if err {
        return BadPattern;
      }
      if star {
        var found;
        found, rest := Retry(chunk, s, more == "");
        if found {
          s, p := rest, more;
          continue;
        }
      }
      return Unmatched;
    }
    return if s == "" then Matched else Unmatched;
  }

  lemma FirstPlace(c: seq<Term>, s: string, last: bool)
    ensures FixedMatch(c, s) && (last ==> |s| == |c|) ==> FirstFit(c, s, last, 0) == Some(0)
    ensures FixedMatch(c, s) ==> |c| <= |s| && s[0 + |c|..] == s[|c|..]
  {
    assert s[0..] == s;
  }
}
