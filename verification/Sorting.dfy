/** Strings in byte order, and lists of them sorted without duplicates. */
module Sorting {
  import opened Paths

  predicate Less(a: string, b: string) {
    b != "" && (a == "" || a[0] < b[0] || (a[0] == b[0] && Less(a[1..], b[1..])))
  }

  lemma {:induction false} NothingIsLessThanItself(a: string)
    ensures !Less(a, a)
  {
    if a != "" {
      NothingIsLessThanItself(a[1..]);
    }
  }

  lemma {:induction false} LessIsTotal(a: string, b: string)
    ensures Less(a, b) || Less(b, a) || a == b
    ensures !(Less(a, b) && Less(b, a)) && !Less(a, a)
  {
    NothingIsLessThanItself(a);
    if a != "" && b != "" {
      LessIsTotal(a[1..], b[1..]);
      assert a == [a[0]] + a[1..] && b == [b[0]] + b[1..];
    }
  }

  ghost predicate FirstDifferenceIsLess(a: string, b: string, k: nat) {
    k < |a| && k < |b| && a[..k] == b[..k] && a[k] < b[k]
  }

  /** One string is less than another if it is its beginning, or has the lesser character where they first differ. */
  lemma {:induction false} LessMeans(a: string, b: string)
    ensures Less(a, b) <==> a < b || exists k :: FirstDifferenceIsLess(a, b, k)
  {
    if a != "" && b != "" {
      var a', b' := a[1..], b[1..];
      LessMeans(a', b');
      assert a == [a[0]] + a' && b == [b[0]] + b';
      if a[0] < b[0] {
        assert FirstDifferenceIsLess(a, b, 0);
      }
      forall k: nat | FirstDifferenceIsLess(a', b', k) && a[0] == b[0] ensures FirstDifferenceIsLess(a, b, k + 1) {
        assert a[..k + 1] == [a[0]] + a'[..k] && b[..k + 1] == [b[0]] + b'[..k];
      }
      forall k: nat | k > 0 && FirstDifferenceIsLess(a, b, k) ensures a[0] == b[0] && FirstDifferenceIsLess(a', b', k - 1) {
        assert a[..k][0] == b[..k][0] && a[..k][1..] == a'[..k - 1] && b[..k][1..] == b'[..k - 1];
      }
    }
  }

  lemma {:induction false} LessIsTransitive(a: string, b: string, c: string)
    requires Less(a, b) && Less(b, c)
    ensures Less(a, c)
  {
    if a != "" {
      if a[0] == b[0] == c[0] {
        LessIsTransitive(a[1..], b[1..], c[1..]);
      }
    }
  }

  /** In order, and none twice. */
  predicate StrictlySorted(a: seq<string>) {
    forall i, j :: 0 <= i < j < |a| ==> Less(a[i], a[j])
  }

  function Insert(a: seq<string>, x: string): seq<string> {
    if a == [] || Less(x, a[0]) then [x] + a else [a[0]] + Insert(a[1..], x)
  }

  lemma InTail(a: seq<string>, x: string)
    requires StrictlySorted(a) && a != []
    ensures x in a[1..] <==> x in a && x != a[0]
    ensures x in a[1..] ==> Less(a[0], x)
  {
    assert a == [a[0]] + a[1..];
    if x in a[1..] {
      var i :| 0 <= i < |a[1..]| && a[1..][i] == x;
      assert Less(a[0], a[i + 1]);
      LessIsTotal(a[0], x);
    }
  }

  lemma FirstIsLeast(x: string, a: seq<string>)
    requires StrictlySorted(a) && a != [] && Less(x, a[0])
    ensures StrictlySorted([x] + a)
  {
    forall i | 0 <= i < |a| ensures Less(x, a[i]) {
      if i > 0 {
        LessIsTransitive(x, a[0], a[i]);
      }
    }
  }

  lemma InsertKeeps(a: seq<string>, x: string)
    ensures multiset(Insert(a, x)) == multiset(a) + multiset{x}
  {
    if a != [] && !Less(x, a[0]) {
      InsertKeeps(a[1..], x);
      assert a == [a[0]] + a[1..];
    }
  }

  lemma {:induction false} InsertSorts(a: seq<string>, x: string)
    requires StrictlySorted(a) && x !in a
    ensures StrictlySorted(Insert(a, x)) && multiset(Insert(a, x)) == multiset(a) + multiset{x}
  {
    InsertKeeps(a, x);
    if a == [] {
    } else if Less(x, a[0]) {
      FirstIsLeast(x, a);
    } else {
      hide Less;
      LessIsTotal(x, a[0]);
      InsertSorts(a[1..], x);
      var rest := Insert(a[1..], x);
      forall i | 0 <= i < |rest| ensures Less(a[0], rest[i]) {
        assert rest[i] in multiset(rest);
        InTail(a, rest[i]);
      }
    }
  }

  /** Sorts distinct strings. */
  method SortStrings(a: seq<string>) returns (r: seq<string>)
    requires NoneTwice(a)
    ensures StrictlySorted(r) && multiset(r) == multiset(a)
  {
    r := [];
    for i := 0 to |a|
      invariant StrictlySorted(r) && multiset(r) == multiset(a[..i])
    {
      assert a[..i + 1] == a[..i] + [a[i]];
      assert a[i] !in multiset(a[..i]);
      InsertSorts(r, a[i]);
      r := Insert(r, a[i]);
    }
    assert a[..|a|] == a;
  }

  lemma SameEmptiness(a: seq<string>, b: seq<string>)
    requires forall x :: x in a <==> x in b
    ensures a == [] <==> b == []
  {
    assert a != [] ==> a[0] in a && a[0] in b;
    assert b != [] ==> b[0] in b && b[0] in a;
  }

  /** Two such lists of the same strings are the same list. */
  lemma {:induction false} SortedListIsUnique(a: seq<string>, b: seq<string>)
    requires StrictlySorted(a) && StrictlySorted(b)
    requires forall x :: x in a <==> x in b
    ensures a == b
  {
    SameEmptiness(a, b);
    if a != [] {
      assert a[0] in b;
      assert b[0] in a;
      LessIsTotal(a[0], b[0]);
      assert a[0] == b[0];
      forall x ensures x in a[1..] <==> x in b[1..] {
        InTail(a, x);
        InTail(b, x);
      }
      SortedListIsUnique(a[1..], b[1..]);
    }
  }
}
