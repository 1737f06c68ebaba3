/**
  Lexicographic order on strings, as Java's String.compareTo defines it:
  the first differing character decides, and a proper prefix comes first.
  Dafny's own `<` on sequences means "proper prefix", so the order is
  spelled out here, together with the strict sorting of a set of strings
  that buildVocab obtains from Collections.sort.
*/
module Lex {

  /** compareTo(a, b) < 0 */
  predicate Less(a: string, b: string)
    decreases |a|
  {
    if |a| == 0 then |b| > 0
    else if |b| == 0 then false
    else if a[0] != b[0] then a[0] < b[0]
    else Less(a[1..], b[1..])
  }

  lemma {:induction false} LessIrreflexive(a: string)
    ensures !Less(a, a)
    decreases |a|
  {
    if |a| > 0 {
      LessIrreflexive(a[1..]);
    }
  }

  lemma {:induction false} LessAsymmetric(a: string, b: string)
    ensures Less(a, b) ==> !Less(b, a)
    decreases |a|
  {
    if |a| > 0 && |b| > 0 && a[0] == b[0] {
      LessAsymmetric(a[1..], b[1..]);
    }
  }

  lemma {:induction false} LessTransitive(a: string, b: string, c: string)
    requires Less(a, b) && Less(b, c)
    ensures Less(a, c)
    decreases |a|
  {
    if |a| > 0 && a[0] == b[0] && b[0] == c[0] {
      LessTransitive(a[1..], b[1..], c[1..]);
    }
  }

  /** Any two different strings are ordered one way or the other. */
  lemma {:induction false} LessTotal(a: string, b: string)
    requires a != b
    ensures Less(a, b) || Less(b, a)
    decreases |a|
  {
    if |a| > 0 && |b| > 0 && a[0] == b[0] {
      assert a == [a[0]] + a[1..] && b == [b[0]] + b[1..];
      LessTotal(a[1..], b[1..]);
    }
  }

  /** Increasing under Less, hence also free of duplicates. */
  ghost predicate StrictlySorted(s: seq<string>)
  {
    forall i, j :: 0 <= i < j < |s| ==> Less(s[i], s[j])
  }

  lemma SortedDistinct(s: seq<string>, i: int, j: int)
    requires StrictlySorted(s) && 0 <= i < |s| && 0 <= j < |s| && i != j
    ensures s[i] != s[j]
  {
    if i < j { LessIrreflexive(s[i]); } else { LessIrreflexive(s[j]); }
  }

  /**
    A set of strings has exactly one strictly sorted listing: the order
    of a vocabulary depends on its terms alone, never on the iteration
    order of the hash set it was collected in.
  */
  lemma {:induction false} SortedListingUnique(a: seq<string>, b: seq<string>)
    requires StrictlySorted(a) && StrictlySorted(b)
    requires forall t :: t in a <==> t in b
    ensures a == b
    decreases |a|
  {
    if |b| > 0 {
      assert b[0] in a;
    }
    if |a| > 0 {
      assert a[0] in b;
      assert |b| > 0;
      if a[0] != b[0] {
        assert b[0] in a;
        var i :| 0 <= i < |a| && a[i] == b[0];
        var j :| 0 <= j < |b| && b[j] == a[0];
        assert i > 0 && j > 0;
        assert Less(a[0], b[0]);
        assert Less(b[0], a[0]);
        LessAsymmetric(a[0], b[0]);
      }
      forall t
        ensures t in a[1..] <==> t in b[1..]
      {
        if t in a[1..] {
          var i :| 1 <= i < |a| && a[i] == t;
          SortedDistinct(a, 0, i);
          assert t in b;
        }
        if t in b[1..] {
          var j :| 1 <= j < |b| && b[j] == t;
          SortedDistinct(b, 0, j);
          assert t in a;
        }
      }
      SortedListingUnique(a[1..], b[1..]);
    }
  }

  /** Puts x at its place in the strictly sorted r, which does not hold it yet. */
  method InsertSorted(r: seq<string>, x: string) returns (r': seq<string>)
    requires StrictlySorted(r) && x !in r
    ensures StrictlySorted(r')
    ensures forall t :: t in r' <==> t in r || t == x
  {
    var i := 0;
    while i < |r| && Less(r[i], x)
      invariant 0 <= i <= |r|
      invariant forall k :: 0 <= k < i ==> Less(r[k], x)
    {
      i := i + 1;
    }
    if i < |r| {
      LessTotal(r[i], x);
    }
    r' := r[..i] + [x] + r[i..];
    forall p, q | 0 <= p < q < |r'|
      ensures Less(r'[p], r'[q])
    {
      if q < i || p > i {
        assert Less(r'[p], r'[q]);
      } else if p == i {
        assert Less(x, r[i]);
        if q - 1 > i { LessTransitive(x, r[i], r[q - 1]); }
      } else {
        assert Less(r[p], x);
      }
    }
    assert forall t :: t in r' <==> t in r[..i] || t == x || t in r[i..];
    assert r == r[..i] + r[i..];
  }

  /**
    `new ArrayList<>(set)` followed by Collections.sort: the elements of
    the set, taken in an arbitrary order, end in strictly increasing order.
  */
  method SortedList(s: set<string>) returns (r: seq<string>)
    ensures StrictlySorted(r)
    ensures forall t :: t in r <==> t in s
  {
    r := [];
    var rest := s;
    while rest != {}
      invariant rest <= s
      invariant StrictlySorted(r)
      invariant forall t :: t in r <==> t in s && t !in rest
      decreases |rest|
    {
      var x :| x in rest;
      r := InsertSorted(r, x);
      rest := rest - {x};
    }
  }
}
