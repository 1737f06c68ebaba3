/**
  The decision rules of the model, stated on the vector of per-class
  values: the first index of a maximum (predict), the first index of a
  minimum (predictFisher), and the softmax taken relative to the maximum
  (predictProba).
*/
module Decision {
  import opened Numerics

  /** b is the smallest index holding a maximum of s. */
  predicate IsFirstArgmax(s: seq<real>, b: int)
  {
    && 0 <= b < |s|
    && (forall c :: 0 <= c < |s| ==> s[c] <= s[b])
    && (forall c :: 0 <= c < b ==> s[c] < s[b])
  }

  /** b is the smallest index holding a minimum of s. */
  predicate IsFirstArgmin(s: seq<real>, b: int)
  {
    && 0 <= b < |s|
    && (forall c :: 0 <= c < |s| ==> s[b] <= s[c])
    && (forall c :: 0 <= c < b ==> s[b] < s[c])
  }

  /** The tie-breaking rule leaves no choice: at most one index is the first maximum. */
  lemma FirstArgmaxUnique(s: seq<real>, b1: int, b2: int)
    requires IsFirstArgmax(s, b1) && IsFirstArgmax(s, b2)
    ensures b1 == b2
  {
    NoEarlierMax(s, b1, b2);
    NoEarlierMax(s, b2, b1);
  }

  /** Every non-empty vector has a first maximum, so predict always finds a class. */
  lemma {:induction false} FirstArgmaxExists(s: seq<real>) returns (b: int)
    requires |s| >= 1
    ensures IsFirstArgmax(s, b)
    decreases |s|
  {
    if |s| == 1 {
      b := 0;
    } else {
      var init := s[..|s| - 1];
      var b' := FirstArgmaxExists(init);
      assert forall c :: 0 <= c < |init| ==> init[c] == s[c];
      if s[|s| - 1] > s[b'] {
        b := |s| - 1;
      } else {
        b := b';
      }
    }
  }

  /** No index before the first maximum holds a value as large. */
  lemma NoEarlierMax(s: seq<real>, b: int, c: int)
    requires IsFirstArgmax(s, b) && 0 <= c < |s| && s[b] <= s[c]
    ensures b <= c
  {
  }

  /** Likewise for the first minimum. */
  lemma FirstArgminUnique(s: seq<real>, b1: int, b2: int)
    requires IsFirstArgmin(s, b1) && IsFirstArgmin(s, b2)
    ensures b1 == b2
  {
    NoEarlierMin(s, b1, b2);
    NoEarlierMin(s, b2, b1);
  }

  /** Every non-empty vector has a first minimum, so predictFisher always finds a class. */
  lemma {:induction false} FirstArgminExists(s: seq<real>) returns (b: int)
    requires |s| >= 1
    ensures IsFirstArgmin(s, b)
    decreases |s|
  {
    if |s| == 1 {
      b := 0;
    } else {
      var init := s[..|s| - 1];
      var b' := FirstArgminExists(init);
      assert forall c :: 0 <= c < |init| ==> init[c] == s[c];
      if s[|s| - 1] < s[b'] {
        b := |s| - 1;
      } else {
        b := b';
      }
    }
  }

  /** No index before the first minimum holds a value as small. */
  lemma NoEarlierMin(s: seq<real>, b: int, c: int)
    requires IsFirstArgmin(s, b) && 0 <= c < |s| && s[c] <= s[b]
    ensures b <= c
  {
  }

  /** The negated values, as the Fisher statistic stands to a score. */
  function Negate(s: seq<real>): (t: seq<real>)
    ensures |t| == |s|
  {
    seq(|s|, i requires 0 <= i < |s| => -s[i])
  }

  /** The first minimum of s is the first maximum of its negation, and back. */
  lemma ArgminIsArgmaxOfNegation(s: seq<real>, b: int)
    ensures IsFirstArgmin(s, b) <==> IsFirstArgmax(Negate(s), b)
  {
    var t := Negate(s);
    assert forall c :: 0 <= c < |s| ==> t[c] == -s[c];
  }

  /**
    The running maximum of predictProba: the first value, then each later
    one that is strictly larger.
  */
  function Max(s: seq<real>): real
    requires |s| >= 1
    decreases |s|
  {
    if |s| == 1 then s[0]
    else
      var m := Max(s[..|s| - 1]);
      if s[|s| - 1] > m then s[|s| - 1] else m
  }

  /** The running maximum bounds every value and is one of them. */
  lemma {:induction false} MaxIsMaximum(s: seq<real>)
    requires |s| >= 1
    ensures forall i :: 0 <= i < |s| ==> s[i] <= Max(s)
    ensures exists i :: 0 <= i < |s| && s[i] == Max(s)
    decreases |s|
  {
    if |s| > 1 {
      var init := s[..|s| - 1];
      MaxIsMaximum(init);
      var k :| 0 <= k < |init| && init[k] == Max(init);
      assert s[k] == init[k];
      if s[|s| - 1] > Max(init) {
        assert s[|s| - 1] == Max(s);
      } else {
        assert s[k] == Max(s);
      }
      forall i | 0 <= i < |s| - 1
        ensures s[i] <= Max(s)
      {
        assert s[i] == init[i];
      }
    } else {
      assert s[0] == Max(s);
    }
  }

  /** The first maximum holds the running maximum. */
  lemma ArgmaxHoldsMax(s: seq<real>, b: int)
    requires IsFirstArgmax(s, b)
    ensures s[b] == Max(s)
  {
    MaxIsMaximum(s);
  }

  /** exp(s[0] - m) + ... + exp(s[k-1] - m), added left to right from 0.0. */
  function SumExp(nm: Numerics, s: seq<real>, m: real, k: nat): real
    requires k <= |s|
    decreases k
  {
    if k == 0 then 0.0 else SumExp(nm, s, m, k - 1) + Exp(nm, s[k - 1] - m)
  }

  /**
    The sum is at least each of its terms, and at least 1 once it has
    taken in a value equal to m, whose term is exp(0) = 1.
  */
  lemma {:induction false} SumExpBounds(nm: Numerics, s: seq<real>, m: real, k: nat)
    requires ExpBasics(nm) && k <= |s|
    ensures SumExp(nm, s, m, k) >= 0.0
    ensures forall i :: 0 <= i < k ==> Exp(nm, s[i] - m) <= SumExp(nm, s, m, k)
    ensures (exists i :: 0 <= i < k && s[i] == m) ==> SumExp(nm, s, m, k) >= 1.0
    decreases k
  {
    if k > 0 {
      SumExpBounds(nm, s, m, k - 1);
      assert Exp(nm, s[k - 1] - m) >= 0.0;
      if exists i :: 0 <= i < k && s[i] == m {
        var i :| 0 <= i < k && s[i] == m;
        assert s[i] - m == 0.0;
      }
    }
  }

  /**
    predictProba's result for the scores s: exp(s[c] - max) divided by
    the sum of these terms. The sum is at least 1, so the division is
    defined.
  */
  function Softmax(nm: Numerics, s: seq<real>): (p: seq<real>)
    requires ExpBasics(nm) && |s| >= 1
    ensures |p| == |s|
  {
    var m := Max(s);
    MaxIsMaximum(s);
    SumExpBounds(nm, s, m, |s|);
    var total := SumExp(nm, s, m, |s|);
    seq(|s|, i requires 0 <= i < |s| => Exp(nm, s[i] - m) / total)
  }

  /** A vector whose entries are the terms divided by their total is the softmax. */
  lemma SoftmaxFromTerms(nm: Numerics, s: seq<real>, m: real, total: real, p: seq<real>)
    requires ExpBasics(nm) && |s| >= 1 && m == Max(s) && total == SumExp(nm, s, m, |s|)
    requires |p| == |s| && total != 0.0
    requires forall i :: 0 <= i < |s| ==> p[i] == Exp(nm, s[i] - m) / total
    ensures p == Softmax(nm, s)
  {
  }

  /** Every probability lies in [0, 1]: each term is non-negative and at most the sum. */
  lemma SoftmaxInUnitInterval(nm: Numerics, s: seq<real>)
    requires ExpBasics(nm) && |s| >= 1
    ensures forall i :: 0 <= i < |s| ==> 0.0 <= Softmax(nm, s)[i] <= 1.0
  {
    var m := Max(s);
    MaxIsMaximum(s);
    SumExpBounds(nm, s, m, |s|);
    var total := SumExp(nm, s, m, |s|);
    var k :| 0 <= k < |s| && s[k] == m;
    assert total >= 1.0;
    forall i | 0 <= i < |s|
      ensures 0.0 <= Softmax(nm, s)[i] <= 1.0
    {
      var e := Exp(nm, s[i] - m);
      assert 0.0 <= e <= total;
      assert Softmax(nm, s)[i] == e / total;
      UnitQuotient(e, total);
    }
  }

  /**
    Every probability lies in [0, 1], and the class that predict chooses
    (the first maximum of the scores) receives the largest probability,
    1 / total, where the total is at least 1.
  */
  lemma SoftmaxFavoursArgmax(nm: Numerics, s: seq<real>, b: int)
    requires ExpFacts(nm) && IsFirstArgmax(s, b)
    ensures SumExp(nm, s, Max(s), |s|) >= 1.0
    ensures forall i :: 0 <= i < |s| ==> 0.0 <= Softmax(nm, s)[i] <= 1.0
    ensures Softmax(nm, s)[b] == 1.0 / SumExp(nm, s, Max(s), |s|)
    ensures forall i :: 0 <= i < |s| ==> Softmax(nm, s)[i] <= Softmax(nm, s)[b]
  {
    var m := Max(s);
    MaxIsMaximum(s);
    ArgmaxHoldsMax(s, b);
    SumExpBounds(nm, s, m, |s|);
    var total := SumExp(nm, s, m, |s|);
    var p := Softmax(nm, s);
    assert p[b] == Exp(nm, 0.0) / total;
    forall i | 0 <= i < |s|
      ensures 0.0 <= p[i] <= 1.0 && p[i] <= p[b]
    {
      var e := Exp(nm, s[i] - m);
      assert p[i] == e / total;
      assert e <= Exp(nm, 0.0);
      EntryBounds(e, total);
    }
  }

  /** A part of a positive total, divided by that total, lies in [0, 1]. */
  lemma UnitQuotient(e: real, total: real)
    requires 0.0 <= e <= total && total > 0.0
    ensures 0.0 <= e / total <= 1.0
  {
  }

  /** A term between 0 and 1 that is at most the total, divided by a total of at least 1. */
  lemma EntryBounds(e: real, total: real)
    requires 0.0 <= e <= total && e <= 1.0 && total >= 1.0
    ensures 0.0 <= e / total <= 1.0 && e / total <= 1.0 / total
  {
    UnitQuotient(e, total);
  }
}
