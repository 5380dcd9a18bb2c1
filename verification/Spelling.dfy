/** Paths as callers spell them, and the paths that the library's requests are for. */
module Spelling {
  import opened Wrappers
  import opened Pattern
  import opened Matcher

  predicate IsSpace(c: char) {
    || c == ' ' || '\t' <= c <= '\r' || c == '\U{85}' || c == '\U{A0}' || c == '\U{1680}'
    || '\U{2000}' <= c <= '\U{200A}' || c == '\U{2028}' || c == '\U{2029}' || c == '\U{202F}' || c == '\U{205F}' || c == '\U{3000}'
  }

  function SolidFrom(p: string, i: nat): (k: nat)
    requires i <= |p|
    ensures i <= k <= |p| && (k < |p| ==> !IsSpace(p[k]))
    ensures forall j :: i <= j < k ==> IsSpace(p[j])
    decreases |p| - i
  {
    if i < |p| && IsSpace(p[i]) then SolidFrom(p, i + 1) else i
  }

  function SolidTo(p: string, start: nat, i: nat): (k: nat)
    requires start <= i <= |p|
    ensures start <= k <= i && (start < k ==> !IsSpace(p[k - 1]))
    ensures forall j :: k <= j < i ==> IsSpace(p[j])
  {
    if start < i && IsSpace(p[i - 1]) then SolidTo(p, start, i - 1) else i
  }

  function Trim(p: string): string {
    var start := SolidFrom(p, 0);
    var end := SolidTo(p, start, |p|);
    if start == 0 && end == |p| then p else p[start..end]
  }

  /** normalizePath: trims white space and, when `normalize` is set, turns slashes round. */
  function NormalPath(normalize: bool, p: string): string {
    var trimmed := Trim(p);
    if normalize then Slashes(trimmed) else trimmed
  }

  function DepthAfter(p: string, start: nat, i: nat, depth: nat): Option<nat>
    requires start <= i <= |p|
    decreases |p| - i
  {
    if i < |p| && p[i] != SEPARATOR then DepthAfter(p, start, i + 1, depth)
    else
      var element := p[start..i];
      var d := if element == "" || element == "." then Some(depth)
               else if element != ".." then Some(depth + 1)
               else if depth == 0 then None else Some(depth - 1);
      if d.None? || i == |p| then d else DepthAfter(p, i + 1, i + 1, d.value)
  }

  /** validateFilePath: not empty, not absolute, and never above the share's root. */
  predicate ValidFilePath(p: string) {
    p != "" && p[0] != SEPARATOR && '\0' !in p && '/' !in p && DepthAfter(p, 0, 0, 0).Some?
  }

  predicate IsTrimmed(p: string) {
    p != "" ==> !IsSpace(p[0]) && !IsSpace(p[|p| - 1])
  }

  lemma TrimTrims(p: string)
    ensures IsTrimmed(Trim(p)) && (IsTrimmed(p) <==> Trim(p) == p)
  {
    var start := SolidFrom(p, 0);
    var end := SolidTo(p, start, |p|);
    if start != 0 || end != |p| {
      assert |Trim(p)| == end - start;
      assert end > start ==> Trim(p)[0] == p[start] && Trim(p)[end - start - 1] == p[end - 1];
    }
  }

  lemma SlashesKeepSpaces(p: string)
    ensures IsTrimmed(p) ==> IsTrimmed(Slashes(p))
    ensures '/' !in Slashes(p) && ('/' !in p <==> Slashes(p) == p)
  {
    assert forall k :: 0 <= k < |p| ==> IsSpace(Slashes(p)[k]) == IsSpace(p[k]) && Slashes(p)[k] != '/';
    if '/' in p {
      var k :| 0 <= k < |p| && p[k] == '/';
      assert Slashes(p)[k] != p[k];
    }
  }

  // ----- What normalising a path means -----

  lemma SolidFromIs(p: string, i: nat, k: nat)
    requires i <= k <= |p| && (k < |p| ==> !IsSpace(p[k])) && forall j :: i <= j < k ==> IsSpace(p[j])
    ensures SolidFrom(p, i) == k
  {
  }

  lemma SolidToIs(p: string, start: nat, i: nat, k: nat)
    requires start <= k <= i <= |p| && (start < k ==> !IsSpace(p[k - 1])) && forall j :: k <= j < i ==> IsSpace(p[j])
    ensures SolidTo(p, start, i) == k
  {
  }

  lemma TrimIs(p: string, start: nat, end: nat)
    requires start <= end <= |p| && (start < end ==> !IsSpace(p[start]) && !IsSpace(p[end - 1]))
    requires (forall k :: 0 <= k < start ==> IsSpace(p[k])) && (forall k :: end <= k < |p| ==> IsSpace(p[k]))
    ensures Trim(p) == p[start..end]
  {
    if start < end {
      SolidFromIs(p, 0, start);
      SolidToIs(p, start, |p|, end);
    } else {
      SolidFromIs(p, 0, |p|);
    }
  }

  lemma WhatIsTrimmed(p: string) returns (start: nat, end: nat)
    ensures start <= end <= |p| && (start < end ==> !IsSpace(p[start]) && !IsSpace(p[end - 1]))
    ensures (forall k :: 0 <= k < start ==> IsSpace(p[k])) && (forall k :: end <= k < |p| ==> IsSpace(p[k]))
    ensures Trim(p) == p[start..end]
  {
    start := SolidFrom(p, 0);
    end := SolidTo(p, start, |p|);
  }

  /** A slash is written for a separator. */
  lemma SlashesAreSeparators(a: string, b: string)
    ensures NormalPath(true, a + "/" + b) == NormalPath(true, a + "\\" + b)
  {
    var p, q := a + "/" + b, a + "\\" + b;
    assert !IsSpace('/') && !IsSpace('\\');
    hide IsSpace, Trim;
    assert forall k :: 0 <= k < |p| ==> q[k] == (if k == |a| then '\\' else p[k]) && (IsSpace(p[k]) <==> IsSpace(q[k]));
    var start, end := WhatIsTrimmed(p);
    TrimIs(q, start, end);
    assert Slashes(p[start..end]) == Slashes(q[start..end]);
  }

  /** White space around the path counts for nothing. */
  lemma SpacesAreTrimmed(normalize: bool, c: char, p: string)
    requires IsSpace(c)
    ensures NormalPath(normalize, [c] + p) == NormalPath(normalize, p) == NormalPath(normalize, p + [c])
  {
    hide IsSpace, Trim, Slashes;
    var start, end := WhatIsTrimmed(p);
    TrimIs([c] + p, start + 1, end + 1);
    TrimIs(p + [c], start, end);
    assert ([c] + p)[start + 1..end + 1] == p[start..end] == (p + [c])[start..end];
  }

  // ----- Which paths stay below the root -----

  /** The elements of a path, put together. */
  function Joined(elements: seq<string>): string
    requires elements != []
  {
    if |elements| == 1 then elements[0] else elements[0] + "\\" + Joined(elements[1..])
  }

  function Rank(element: string): int {
    if element in {"", "."} then 0 else if element == ".." then -1 else 1
  }

  /** How far below the root the first `k` elements lead. */
  function Level(elements: seq<string>, k: nat): int
    requires k <= |elements|
  {
    if k == 0 then 0 else Level(elements, k - 1) + Rank(elements[k - 1])
  }

  lemma {:induction false} LevelOfRest(elements: seq<string>, k: nat)
    requires k < |elements|
    ensures Level(elements, k + 1) == Rank(elements[0]) + Level(elements[1..], k)
  {
    if k > 0 {
      LevelOfRest(elements, k - 1);
    }
  }

  lemma {:induction false} ElementGoesOn(p: string, start: nat, i: nat, end: nat, depth: nat)
    requires start <= i <= end <= |p| && forall k :: i <= k < end ==> p[k] != SEPARATOR
    ensures DepthAfter(p, start, i, depth) == DepthAfter(p, start, end, depth)
    decreases end - i
  {
    if i < end {
      ElementGoesOn(p, start, i + 1, end, depth);
    }
  }

  /** The elements of a path have none of the characters that a path is split at or rejected for. */
  ghost predicate AreElements(elements: seq<string>) {
    forall i :: 0 <= i < |elements| ==> '\\' !in elements[i] && '/' !in elements[i] && '\0' !in elements[i]
  }

  ghost predicate StaysBelow(elements: seq<string>, depth: int) {
    forall k :: 0 <= k <= |elements| ==> depth + Level(elements, k) >= 0
  }

  lemma RestStaysBelow(elements: seq<string>, depth: nat)
    requires elements != []
    ensures StaysBelow(elements, depth) <==> StaysBelow(elements[1..], depth + Rank(elements[0]))
  {
    var rest := elements[1..];
    forall k | 0 <= k <= |rest| ensures Level(elements, k + 1) == Rank(elements[0]) + Level(rest, k) {
      LevelOfRest(elements, k);
    }
    if StaysBelow(rest, depth + Rank(elements[0])) {
      forall k | 0 <= k <= |elements| ensures depth + Level(elements, k) >= 0 {
        assert k > 0 ==> depth + Rank(elements[0]) + Level(rest, k - 1) >= 0;
      }
    }
    if StaysBelow(elements, depth) {
      forall k | 0 <= k <= |rest| ensures depth + Rank(elements[0]) + Level(rest, k) >= 0 {
        assert depth + Level(elements, k + 1) >= 0;
      }
    }
  }

  /** What one element makes of the depth. */
  lemma ElementCounts(p: string, start: nat, end: nat, depth: nat)
    requires start <= end <= |p| && (forall k :: start <= k < end ==> p[k] != SEPARATOR) && (end < |p| ==> p[end] == SEPARATOR)
    ensures var d := depth + Rank(p[start..end]);
      DepthAfter(p, start, start, depth) ==
        if d < 0 then None else if end == |p| then Some(d) else DepthAfter(p, end + 1, end + 1, d)
  {
    ElementGoesOn(p, start, start, end, depth);
  }

  lemma {:induction false} DepthIsLevel(before: string, elements: seq<string>, depth: nat)
    requires elements != [] && AreElements(elements)
    ensures DepthAfter(before + Joined(elements), |before|, |before|, depth).Some? <==> StaysBelow(elements, depth)
    decreases |elements|
  {
    hide DepthAfter, Rank;
    var p, first := before + Joined(elements), elements[0];
    var start, end := |before|, |before| + |first|;
    assert p[start..end] == first;
    assert forall k :: start <= k < end ==> p[k] == first[k - start];
    ElementCounts(p, start, end, depth);
    RestStaysBelow(elements, depth);
    if |elements| == 1 {
      assert elements[1..] == [];
      assert StaysBelow([], depth + Rank(first)) <==> depth + Rank(first) + Level([], 0) >= 0;
    } else {
      var rest, more := elements[1..], before + first + "\\";
      assert AreElements(rest) && p == more + Joined(rest);
      if depth + Rank(first) >= 0 {
        DepthIsLevel(more, rest, depth + Rank(first));
      } else {
        assert depth + Rank(first) + Level(rest, 0) < 0;
      }
    }
  }

  lemma {:induction false} JoinedHas(elements: seq<string>)
    requires elements != [] && AreElements(elements)
    ensures '/' !in Joined(elements) && '\0' !in Joined(elements)
  {
    if |elements| > 1 {
      assert AreElements(elements[1..]);
      JoinedHas(elements[1..]);
    }
  }

  /** A path is valid exactly if it begins with an element and never leads above the root. */
  lemma ValidStaysBelow(elements: seq<string>)
    requires elements != [] && AreElements(elements)
    ensures ValidFilePath(Joined(elements)) <==>
      elements[0] != "" && StaysBelow(elements, 0)
  {
    DepthIsLevel("", elements, 0);
    JoinedHas(elements);
    assert "" + Joined(elements) == Joined(elements);
    if elements[0] != "" {
      assert Joined(elements)[0] == elements[0][0];
    }
  }

  /** Every path is made of elements, unless it has a character that no path may have. */
  lemma {:induction false} EveryPathIsJoined(p: string) returns (elements: seq<string>)
    ensures elements != [] && Joined(elements) == p
    ensures '/' !in p && '\0' !in p ==> AreElements(elements)
    ensures '/' in p || '\0' in p ==> !ValidFilePath(p)
  {
    if p == "" {
      elements := [""];
    } else {
      var rest := EveryPathIsJoined(p[1..]);
      assert p == [p[0]] + p[1..];
      if p[0] == '\\' {
        elements := [""] + rest;
        assert elements[1..] == rest;
      } else {
        elements := [[p[0]] + rest[0]] + rest[1..];
        assert elements[1..] == rest[1..];
        assert |rest| > 1 ==> Joined(elements) == [p[0]] + (rest[0] + "\\" + Joined(rest[1..]));
      }
    }
  }

  /** Nothing is normalised twice. */
  lemma NormalPathIsNormal(normalize: bool, p: string)
    ensures NormalPath(normalize, NormalPath(normalize, p)) == NormalPath(normalize, p)
  {
    hide Trim, Slashes, IsTrimmed;
    TrimTrims(p);
    SlashesKeepSpaces(Trim(p));
    TrimTrims(NormalPath(normalize, p));
    SlashesKeepSpaces(NormalPath(normalize, p));
  }

  lemma NormalMeans(normalize: bool, p: string)
    ensures NormalPath(normalize, p) == p <==> IsTrimmed(p) && (normalize ==> '/' !in p)
  {
    hide Trim, Slashes, IsTrimmed;
    TrimTrims(p);
    SlashesKeepSpaces(p);
    SlashesKeepSpaces(Trim(p));
  }

  /** The path is valid, and the one that a request for it reaches. */
  predicate PlainPath(normalize: bool, q: string) {
    NormalPath(normalize, q) == q && ValidFilePath(q)
  }
}
