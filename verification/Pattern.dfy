/** Shell file name patterns: their grammar, their parse, and which names they match.

    The alphabet is one of single units: every character stands for itself, as in ASCII. */
module Pattern {
  import opened Wrappers

  const SEPARATOR: char := '\\'

  datatype Range = Range(lo: char, hi: char, dashed: bool)

  datatype Term = Star | Any | Class(negated: bool, ranges: seq<Range>) | Lit(c: char)

  // ----- The grammar -----

  predicate ClassChar(c: char) {
    c != '-' && c != ']'
  }

  predicate WellFormedRange(r: Range) {
    ClassChar(r.lo) && ClassChar(r.hi) && (!r.dashed ==> r.hi == r.lo)
  }

  /** A class is not empty, and only a negated one begins with '^'. */
  predicate WellFormedTerm(t: Term) {
    match t
    case Star => true
    case Any => true
    case Lit(c) => c != '*' && c != '?' && c != '['
    case Class(negated, ranges) =>
      && ranges != []
      && (!negated ==> ranges[0].lo != '^')
      && forall i :: 0 <= i < |ranges| ==> WellFormedRange(ranges[i])
  }

  predicate WellFormed(ts: seq<Term>) {
    forall i :: 0 <= i < |ts| ==> WellFormedTerm(ts[i])
  }

  function RenderRange(r: Range): string {
    if r.dashed then [r.lo, '-', r.hi] else [r.lo]
  }

  function RenderRanges(rs: seq<Range>): string {
    if rs == [] then "]" else RenderRange(rs[0]) + RenderRanges(rs[1..])
  }

  function RenderTerm(t: Term): string {
    match t
    case Star => "*"
    case Any => "?"
    case Lit(c) => [c]
    case Class(negated, ranges) => "[" + ((if negated then "^" else "") + RenderRanges(ranges))
  }

  /** The pattern that a sequence of terms is written as. */
  function Render(ts: seq<Term>): string {
    if ts == [] then "" else RenderTerm(ts[0]) + Render(ts[1..])
  }

  // ----- What a pattern matches -----

  predicate Accepts(t: Term, c: char) {
    match t
    case Star => false
    case Any => c != SEPARATOR
    case Lit(d) => c == d
    case Class(negated, ranges) => InSome(ranges, c) != negated
  }

  predicate InSome(rs: seq<Range>, c: char) {
    exists i :: 0 <= i < |rs| && rs[i].lo <= c <= rs[i].hi
  }

  /** The terms match all of `s`, or, when `open`, some beginning of it. A star matches any run without a separator. */
  predicate Matches(ts: seq<Term>, s: string, open: bool) {
    if ts == [] then open || s == ""
    else if ts[0].Star? then exists k :: 0 <= k <= |s| && SEPARATOR !in s[..k] && Matches(ts[1..], s[k..], open)
    else s != "" && Accepts(ts[0], s[0]) && Matches(ts[1..], s[1..], open)
  }

  predicate Fixed(ts: seq<Term>) {
    Star !in ts
  }

  /** Terms without a star match the beginning of `s`, character by character. */
  predicate FixedMatch(ts: seq<Term>, s: string) {
    |ts| <= |s| && forall i :: 0 <= i < |ts| ==> Accepts(ts[i], s[i])
  }

  lemma {:induction false} FixedThenRest(c: seq<Term>, ts: seq<Term>, s: string, open: bool)
    requires Fixed(c)
    ensures Matches(c + ts, s, open) <==> FixedMatch(c, s) && Matches(ts, s[|c|..], open)
  {
    if c == [] {
      assert c + ts == ts && s[0..] == s;
    } else {
      assert (c + ts)[0] == c[0] && (c + ts)[1..] == c[1..] + ts;
      if s != "" {
        FixedThenRest(c[1..], ts, s[1..], open);
        FixedMatchStep(c, s);
        if |c| <= |s| {
          assert s[1..][|c[1..]|..] == s[|c|..];
        }
      }
    }
  }

  lemma FixedMatchStep(c: seq<Term>, s: string)
    requires c != [] && s != ""
    ensures FixedMatch(c, s) <==> Accepts(c[0], s[0]) && FixedMatch(c[1..], s[1..])
  {
    if Accepts(c[0], s[0]) && FixedMatch(c[1..], s[1..]) {
      forall i | 0 <= i < |c| ensures Accepts(c[i], s[i]) {
        if i > 0 {
          assert Accepts(c[1..][i - 1], s[1..][i - 1]);
        }
      }
    } else if FixedMatch(c, s) {
      forall i | 0 <= i < |c[1..]| ensures Accepts(c[1..][i], s[1..][i]) {
        assert Accepts(c[i + 1], s[i + 1]);
      }
    }
  }

  /** Several stars in a row are as good as one. */
  lemma TwoStarsAreOne(ts: seq<Term>, s: string, open: bool)
    ensures Matches([Star, Star] + ts, s, open) <==> Matches([Star] + ts, s, open)
  {
    assert ([Star, Star] + ts)[1..] == [Star] + ts && ([Star] + ts)[1..] == ts;
    assert s[..0] == "" && s[0..] == s;
    if Matches([Star, Star] + ts, s, open) {
      var k :| 0 <= k <= |s| && SEPARATOR !in s[..k] && Matches([Star] + ts, s[k..], open);
      var l :| 0 <= l <= |s[k..]| && SEPARATOR !in s[k..][..l] && Matches(ts, s[k..][l..], open);
      hide Matches;
      assert s[..k + l] == s[..k] + s[k..][..l] && s[k..][l..] == s[k + l..];
    }
  }

  // ----- Parsing -----

  /** One character of a class: not a bare '-' nor the end of the class, and not the last of the pattern. */
  function ClassRune(chunk: string): Option<(char, string)> {
    if chunk == "" || chunk[0] == '-' || chunk[0] == ']' || chunk[1..] == "" then None
    else Some((chunk[0], chunk[1..]))
  }

  function ParseRange(p: string): (r: Option<(Range, string)>)
    ensures r.Some? ==> |r.value.1| < |p|
  {
    match ClassRune(p)
    case None => None
    case Some((lo, rest)) =>
      if rest[0] != '-' then Some((Range(lo, lo, false), rest))
      else match ClassRune(rest[1..])
        case None => None
        case Some((hi, rest)) => Some((Range(lo, hi, true), rest))
  }

  /** The ranges up to the end of a class; `some` says that the class has one already. */
  function ParseRanges(p: string, some: bool): (r: Option<(seq<Range>, string)>)
    ensures r.Some? ==> |r.value.1| < |p|
    decreases |p|
  {
    if p != "" && p[0] == ']' && some then Some(([], p[1..]))
    else match ParseRange(p)
      case None => None
      case Some((r, rest)) =>
        match ParseRanges(rest, true)
        case None => None
        case Some((rs, rest)) => Some(([r] + rs, rest))
  }

  /** What follows the opening bracket of a class. */
  function ParseClass(p: string): (r: Option<(Term, string)>)
    ensures r.Some? ==> |r.value.1| < |p|
  {
    var negated := p != "" && p[0] == '^';
    match ParseRanges(if negated then p[1..] else p, false)
    case None => None
    case Some((ranges, rest)) => Some((Class(negated, ranges), rest))
  }

  function ParseTerm(p: string): (r: Option<(Term, string)>)
    requires p != ""
    ensures r.Some? ==> |r.value.1| < |p|
  {
    if p[0] == '*' then Some((Star, p[1..]))
    else if p[0] == '?' then Some((Any, p[1..]))
    else if p[0] != '[' then Some((Lit(p[0]), p[1..]))
    else ParseClass(p[1..])
  }

  /** The terms of a pattern, as far as it is well formed. */
  datatype Parsed = Parsed(terms: seq<Term>, ok: bool)

  function Parse(p: string): Parsed
    decreases |p|
  {
    if p == "" then Parsed([], true)
    else match ParseTerm(p)
      case None => Parsed([], false)
      case Some((t, rest)) =>
        var d := Parse(rest);
        Parsed([t] + d.terms, d.ok)
  }

  // ----- The parse is the grammar's -----

  lemma {:induction false} ParseRangesRendered(rs: seq<Range>, some: bool, x: string)
    requires forall i :: 0 <= i < |rs| ==> WellFormedRange(rs[i])
    requires rs == [] ==> some
    ensures ParseRanges(RenderRanges(rs) + x, some) == Some((rs, x))
  {
    if rs == [] {
      assert ("]" + x)[1..] == x;
    } else {
      var r, rest := rs[0], RenderRanges(rs[1..]) + x;
      assert RenderRanges(rs) + x == RenderRange(r) + rest;
      assert rest[0] == ']' || WellFormedRange(rs[1]);
      ParseRangeRendered(r, rest);
      ParseRangesRendered(rs[1..], true, x);
      assert [r] + rs[1..] == rs;
    }
  }

  lemma ParseRangeRendered(r: Range, rest: string)
    requires WellFormedRange(r) && rest != "" && rest[0] != '-'
    ensures ParseRange(RenderRange(r) + rest) == Some((r, rest))
  {
    var p := RenderRange(r) + rest;
    if r.dashed {
      assert p[1..] == ['-', r.hi] + rest && p[1..][1..] == [r.hi] + rest && p[1..][1..][1..] == rest;
    } else {
      assert p[1..] == rest;
    }
  }

  lemma ParseClassRendered(t: Term, x: string)
    requires t.Class? && WellFormedTerm(t)
    ensures ParseClass((if t.negated then "^" else "") + RenderRanges(t.ranges) + x) == Some((t, x))
  {
    hide ParseRanges;
    ParseRangesRendered(t.ranges, false, x);
    var body := RenderRanges(t.ranges) + x;
    assert body[0] == t.ranges[0].lo;
    var p := (if t.negated then "^" else "") + RenderRanges(t.ranges) + x;
    assert (if t.negated then p[1..] else p) == body;
  }

  lemma AfterFirst(c: char, body: string, x: string)
    ensures ([c] + body + x)[0] == c && ([c] + body + x)[1..] == body + x
  {
  }

  lemma ParseTermRendered(t: Term, x: string)
    requires WellFormedTerm(t)
    ensures RenderTerm(t) != "" && ParseTerm(RenderTerm(t) + x) == Some((t, x))
  {
    hide ParseClass, RenderRanges;
    if t.Class? {
      var body := (if t.negated then "^" else "") + RenderRanges(t.ranges);
      ParseClassRendered(t, x);
      AfterFirst('[', body, x);
    } else {
      assert (RenderTerm(t) + x)[1..] == x;
    }
  }

  /** Parsing what well-formed terms are written as gives those terms back. */
  lemma {:induction false} ParseInvertsRender(ts: seq<Term>)
    requires WellFormed(ts)
    ensures Parse(Render(ts)) == Parsed(ts, true)
  {
    if ts != [] {
      assert WellFormedTerm(ts[0]);
      ParseTermRendered(ts[0], Render(ts[1..]));
      ParseInvertsRender(ts[1..]);
    }
  }

  lemma ParsedRangeRenders(p: string)
    requires ParseRange(p).Some?
    ensures var (r, rest) := ParseRange(p).value;
      p == RenderRange(r) + rest && WellFormedRange(r) && p[0] == r.lo != ']'
  {
    var (r, rest) := ParseRange(p).value;
    assert p == [p[0]] + p[1..];
    if r.dashed {
      assert p[1..] == ['-', r.hi] + rest;
    }
  }

  lemma Regroup(a: string, b: string, c: string)
    ensures a + (b + c) == a + b + c
  {
  }

  lemma {:induction false} ParsedRangesRender(p: string, some: bool)
    requires ParseRanges(p, some).Some?
    ensures var (rs, x) := ParseRanges(p, some).value;
      && p == RenderRanges(rs) + x && (rs == [] ==> some)
      && (forall i :: 0 <= i < |rs| ==> WellFormedRange(rs[i]))
      && (rs != [] ==> p[0] == rs[0].lo)
    decreases |p|
  {
    if p != "" && p[0] == ']' && some {
      assert p == "]" + p[1..];
    } else {
      hide ParseRange, RenderRange, WellFormedRange;
      ParsedRangeRenders(p);
      var (r, rest) := ParseRange(p).value;
      ParsedRangesRender(rest, true);
      var (rs, x) := ParseRanges(p, some).value;
      assert rs[1..] == ParseRanges(rest, true).value.0;
      Regroup(RenderRange(r), RenderRanges(rs[1..]), x);
    }
  }

  lemma ParsedClassRenders(p: string)
    requires ParseClass(p).Some?
    ensures var (t, x) := ParseClass(p).value;
      t.Class? && "[" + p == RenderTerm(t) + x && WellFormedTerm(t)
  {
    hide ParseRanges, RenderRanges, WellFormedRange;
    var negated := p != "" && p[0] == '^';
    var body := if negated then p[1..] else p;
    ParsedRangesRender(body, false);
    var (ranges, x) := ParseRanges(body, false).value;
    var mark := if negated then "^" else "";
    assert p == mark + body;
    Regroup(mark, RenderRanges(ranges), x);
    Regroup("[", mark + RenderRanges(ranges), x);
  }

  lemma ParsedTermRenders(p: string)
    requires p != "" && ParseTerm(p).Some?
    ensures var (t, x) := ParseTerm(p).value; p == RenderTerm(t) + x && WellFormedTerm(t)
  {
    hide ParseClass, RenderRanges;
    if p[0] == '[' {
      ParsedClassRenders(p[1..]);
      assert p == "[" + p[1..];
    } else {
      assert p == [p[0]] + p[1..];
    }
  }

  /** What parses was written by the grammar: together with ParseInvertsRender, a pattern
      is well formed exactly when it parses. */
  lemma {:induction false} ParsedIsWellFormed(p: string)
    requires Parse(p).ok
    ensures WellFormed(Parse(p).terms) && Render(Parse(p).terms) == p
    decreases |p|
  {
    if p != "" {
      ParsedTermRenders(p);
      var (t, rest) := ParseTerm(p).value;
      ParsedIsWellFormed(rest);
      assert Parse(p).terms[1..] == Parse(rest).terms;
    }
  }

  // ----- Splitting at stars outside classes -----

  /** Whether a class is open after `s`, going by the brackets alone. */
  function InClass(s: string): bool {
    if s == "" then false
    else
      var last := s[|s| - 1];
      if last == '[' then true else if last == ']' then false else InClass(s[..|s| - 1])
  }

  lemma {:induction false} InClassAfter(a: string, b: string)
    ensures !InClass(a) ==> InClass(a + b) == InClass(b)
    ensures ']' !in b ==> InClass("[" + b)
    decreases |b|
  {
    if b == "" {
      assert a + b == a && "[" + b == "[";
    } else {
      var most := b[..|b| - 1];
      InClassAfter(a, most);
      assert (a + b)[..|a + b| - 1] == a + most && ("[" + b)[..|b|] == "[" + most;
    }
  }

  /** No star of `q` lies outside a class, going by the brackets. */
  predicate StarsInClasses(q: string) {
    forall k :: 0 <= k < |q| && q[k] == '*' ==> InClass(q[..k])
  }

  lemma TailOfMore(q: string, x: string)
    requires q != ""
    ensures (q + x)[1..] == q[1..] + x
  {
  }

  lemma MoreAfterRange(q: string, x: string)
    requires ParseRange(q).Some?
    ensures var (r, rest) := ParseRange(q).value; ParseRange(q + x) == Some((r, rest + x))
  {
    TailOfMore(q, x);
    TailOfMore(q[1..], x);
    if q[1] == '-' {
      TailOfMore(q[1..][1..], x);
    }
  }

  lemma RangeCutShort(q: string, x: string)
    requires ParseRange(q).None? && ParseRange(q + x).Some?
    ensures ']' !in q
  {
    if q != "" {
      TailOfMore(q, x);
      if |q| > 1 {
        TailOfMore(q[1..], x);
        if |q| > 2 {
          TailOfMore(q[1..][1..], x);
        }
      }
    }
  }

  lemma {:induction false} MoreAfterRanges(q: string, x: string, some: bool)
    requires ParseRanges(q, some).Some?
    ensures var (rs, rest) := ParseRanges(q, some).value; ParseRanges(q + x, some) == Some((rs, rest + x))
    decreases |q|
  {
    if q != "" && q[0] == ']' && some {
      assert (q + x)[1..] == q[1..] + x;
    } else {
      var (r, rest) := ParseRange(q).value;
      MoreAfterRange(q, x);
      MoreAfterRanges(rest, x, true);
    }
  }

  /** Where only the end of the text keeps a class from being complete, the text holds no closing bracket. */
  lemma {:induction false} RangesCutShort(q: string, x: string, some: bool)
    requires ParseRanges(q, some).None? && ParseRanges(q + x, some).Some?
    ensures ']' !in q
    decreases |q|
  {
    hide ParseRange;
    if q != "" {
      if ParseRange(q).Some? {
        var (r, rest) := ParseRange(q).value;
        MoreAfterRange(q, x);
        ParsedRangeRenders(q);
        RangesCutShort(rest, x, true);
      } else {
        RangeCutShort(q, x);
      }
    }
  }

  lemma ClassOfSegment(q: string, x: string)
    requires x == "" || ']' in q
    ensures match ParseClass(q)
      case Some((t, rest)) => ParseClass(q + x) == Some((t, rest + x))
      case None => ParseClass(q + x).None?
  {
    hide ParseRanges;
    if x == "" {
      assert q + x == q && forall s: string :: s + x == s;
    } else {
      var negated := q[0] == '^';
      var body := if negated then q[1..] else q;
      assert (if negated then (q + x)[1..] else q + x) == body + x;
      if ParseRanges(body, false).Some? {
        MoreAfterRanges(body, x, false);
      } else if ParseRanges(body + x, false).Some? {
        RangesCutShort(body, x, false);
      }
    }
  }

  /** A term read from the front of a segment is read from the front of the whole pattern too,
      and a segment that cannot be read on cannot be read on in the whole pattern either. */
  lemma TermOfSegment(q: string, x: string)
    requires q != "" && (x == "" || !InClass(q))
    ensures match ParseTerm(q)
      case Some((t, rest)) => ParseTerm(q + x) == Some((t, rest + x))
      case None => ParseTerm(q + x).None?
  {
    hide ParseClass, InClass;
    assert (q + x)[1..] == q[1..] + x;
    if q[0] == '[' {
      InClassAfter("", q[1..]);
      assert q == "[" + q[1..];
      ClassOfSegment(q[1..], x);
    }
  }

  lemma {:induction false} RenderedRangesClose(rs: seq<Range>)
    ensures RenderRanges(rs) != "" && RenderRanges(rs)[|RenderRanges(rs)| - 1] == ']'
  {
    if rs != [] {
      RenderedRangesClose(rs[1..]);
    }
  }

  lemma TermClosesItsClass(q: string)
    requires q != "" && ParseTerm(q).Some?
    ensures var rest := ParseTerm(q).value.1; q[|q| - |rest|..] == rest && !InClass(q[..|q| - |rest|])
  {
    ParsedTermRenders(q);
    var (t, rest) := ParseTerm(q).value;
    assert q[..|q| - |rest|] == RenderTerm(t);
    if t.Class? {
      RenderedRangesClose(t.ranges);
    }
  }

  /** After a term has been read, what is left of a segment is a segment. */
  lemma RestOfSegment(q: string)
    requires q != "" && StarsInClasses(q) && ParseTerm(q).Some?
    ensures var (t, rest) := ParseTerm(q).value;
      t != Star && StarsInClasses(rest) && InClass(rest) == InClass(q)
  {
    hide ParseTerm, InClass;
    TermClosesItsClass(q);
    var (t, rest) := ParseTerm(q).value;
    var m := |q| - |rest|;
    assert q == q[..m] + rest;
    InClassAfter(q[..m], rest);
    forall k | 0 <= k < |rest| && rest[k] == '*' ensures InClass(rest[..k]) {
      assert q[m + k] == '*' && q[..m + k] == q[..m] + rest[..k];
      InClassAfter(q[..m], rest[..k]);
    }
    ParsedTermRenders(q);
    NothingIsOpen(q);
  }

  lemma NothingIsOpen(q: string)
    ensures !InClass(q[..0])
  {
  }

  /** A pattern parses as its first segment followed by what the rest parses as, and no star
      separates the segment in the middle of a class. */
  lemma {:induction false} SegmentParses(q: string, x: string)
    requires StarsInClasses(q) && (x == "" || !InClass(q))
    ensures Fixed(Parse(q).terms)
    ensures Parse(q + x) ==
      if Parse(q).ok then Parsed(Parse(q).terms + Parse(x).terms, Parse(x).ok) else Parse(q)
    decreases |q|
  {
    hide ParseTerm, InClass, StarsInClasses;
    if q == "" {
      assert q + x == x;
    } else {
      TermOfSegment(q, x);
      if ParseTerm(q).Some? {
        RestOfSegment(q);
        var (t, rest) := ParseTerm(q).value;
        SegmentParses(rest, x);
        assert [t] + (Parse(rest).terms + Parse(x).terms) == ([t] + Parse(rest).terms) + Parse(x).terms;
      }
    }
  }

  /** Stars in front of a pattern are just that. */
  lemma StarFirst(p: string)
    requires p != "" && p[0] == '*'
    ensures Parse(p) == Parsed([Star] + Parse(p[1..]).terms, Parse(p[1..]).ok)
  {
  }
}
