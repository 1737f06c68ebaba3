/**
  NaiveBayesModel: a log-prior per class and a class-by-feature matrix of
  log-likelihoods, both fixed at construction. The methods read them and
  never write them: no method may modify logPrior or logLikelihood. Only
  the static helpers SoftmaxInPlace, ExpShift and DivideAll write, and
  only to the fresh result array of predictProba.
*/
module NaiveBayes {
  import opened Numerics
  import opened Decision

  class NaiveBayesModel {
    const logPrior: array<real>
    const logLikelihood: array2<real>

    /** One row of log-likelihoods per class. */
    ghost predicate Valid()
    {
      logLikelihood.Length0 == logPrior.Length
    }

    constructor (logPrior: array<real>, logLikelihood: array2<real>)
      ensures this.logPrior == logPrior && this.logLikelihood == logLikelihood
    {
      this.logPrior := logPrior;
      this.logLikelihood := logLikelihood;
    }

    /** logPrior[c] + x[0] * ll[c, 0] + ... + x[n-1] * ll[c, n-1], added left to right. */
    function ScoreUpTo(c: nat, x: seq<real>, n: nat): real
      requires c < logPrior.Length && c < logLikelihood.Length0
      requires n <= |x| <= logLikelihood.Length1
      reads logPrior, logLikelihood
      decreases n
    {
      if n == 0 then logPrior[c]
      else ScoreUpTo(c, x, n - 1) + x[n - 1] * logLikelihood[c, n - 1]
    }

    /** The score of class c for the feature vector x. */
    function Score(c: nat, x: seq<real>): real
      requires c < logPrior.Length && c < logLikelihood.Length0
      requires |x| <= logLikelihood.Length1
      reads logPrior, logLikelihood
    {
      ScoreUpTo(c, x, |x|)
    }

    /** The scores of all classes, in class order. */
    function Scores(x: seq<real>): (s: seq<real>)
      requires Valid() && |x| <= logLikelihood.Length1
      reads logPrior, logLikelihood
      ensures |s| == logPrior.Length
    {
      seq(logPrior.Length, c requires 0 <= c < logPrior.Length reads logPrior, logLikelihood => Score(c, x))
    }

    /** Features that are zero add nothing: up to n, an all-zero prefix leaves the prior. */
    lemma {:induction false} ScoreOfZeros(c: nat, x: seq<real>, n: nat)
      requires c < logPrior.Length && c < logLikelihood.Length0
      requires n <= |x| <= logLikelihood.Length1
      requires forall j :: 0 <= j < n ==> x[j] == 0.0
      ensures ScoreUpTo(c, x, n) == logPrior[c]
      decreases n
    {
      if n > 0 {
        ScoreOfZeros(c, x, n - 1);
      }
    }

    /**
      On a document with no vocabulary term, every score is the class's
      log-prior, so predict picks the first class of largest prior.
    */
    lemma PredictOnZerosFollowsPrior(x: seq<real>, b: int)
      requires Valid() && |x| <= logLikelihood.Length1
      requires forall j :: 0 <= j < |x| ==> x[j] == 0.0
      ensures Scores(x) == logPrior[..]
      ensures IsFirstArgmax(Scores(x), b) <==> IsFirstArgmax(logPrior[..], b)
    {
      forall c | 0 <= c < logPrior.Length
        ensures Scores(x)[c] == logPrior[c]
      {
        ScoreOfZeros(c, x, |x|);
      }
    }

    /**
      predict(x): the first class of maximal score, or -1 when there are no
      classes. Java starts from best = -infinity, below every score, so the
      first class is always taken; the model says this with bestClass == -1.
    */
    method Predict(x: array<real>) returns (bestClass: int)
      requires Valid() && x.Length <= logLikelihood.Length1
      ensures logPrior.Length == 0 ==> bestClass == -1
      ensures logPrior.Length > 0 ==> IsFirstArgmax(Scores(x[..]), bestClass)
    {
      var best := 0.0;
      bestClass := -1;
      for c := 0 to logPrior.Length
        invariant c == 0 <==> bestClass == -1
        invariant c > 0 ==> 0 <= bestClass < c && best == Score(bestClass, x[..])
        invariant forall d :: 0 <= d < c ==> Score(d, x[..]) <= best
        invariant forall d :: 0 <= d < bestClass ==> Score(d, x[..]) < best
      {
        var score := logPrior[c];
        for j := 0 to x.Length
          invariant score == ScoreUpTo(c, x[..], j)
        {
          score := score + x[j] * logLikelihood[c, j];
        }
        if bestClass == -1 || score > best {
          best := score;
          bestClass := c;
        }
      }
    }

    /**
      predictProba(x): the scores, their running maximum, exp of each
      score less the maximum, and these divided by their sum, all in one
      array that the three passes overwrite in turn. The result is the
      softmax of the scores; predict's class gets the largest entry.
    */
    method PredictProba(nm: Numerics, x: array<real>) returns (logProbs: array<real>)
      requires Valid() && x.Length <= logLikelihood.Length1 && ExpBasics(nm)
      ensures fresh(logProbs)
      ensures logProbs.Length == logPrior.Length
      ensures logPrior.Length > 0 ==> logProbs[..] == Softmax(nm, Scores(x[..]))
    {
      var maxLogProb;
      logProbs, maxLogProb := ScoreAll(x);
      if logPrior.Length > 0 {
        SoftmaxInPlace(nm, logProbs, maxLogProb);
      }
    }

    /**
      The first pass of predictProba: a fresh array of the scores, and
      their running maximum.
    */
    method ScoreAll(x: array<real>) returns (logProbs: array<real>, maxLogProb: real)
      requires Valid() && x.Length <= logLikelihood.Length1
      ensures fresh(logProbs)
      ensures logProbs[..] == Scores(x[..])
      ensures logPrior.Length > 0 ==> maxLogProb == Max(Scores(x[..]))
    {
      var k := logPrior.Length;
      logProbs := new real[k];
      maxLogProb := 0.0;
      ghost var s: seq<real> := [];
      for c := 0 to k
        invariant |s| == c
        invariant forall d :: 0 <= d < c ==> logProbs[d] == s[d] == Score(d, x[..])
        invariant c > 0 ==> maxLogProb == Max(s)
      {
        var score := logPrior[c];
        for j := 0 to x.Length
          invariant score == ScoreUpTo(c, x[..], j)
        {
          score := score + x[j] * logLikelihood[c, j];
        }
        logProbs[c] := score;
        assert (s + [score])[..c] == s;
        s := s + [score];
        if c == 0 || score > maxLogProb {
          maxLogProb := score;
        }
      }
      assert logProbs[..] == s;
      assert s == Scores(x[..]);
    }

    /**
      The second and third passes of predictProba: the scores in the array
      become their softmax, given their maximum.
    */
    static method SoftmaxInPlace(nm: Numerics, logProbs: array<real>, maxLogProb: real)
      requires ExpBasics(nm) && logProbs.Length >= 1 && maxLogProb == Max(logProbs[..])
      modifies logProbs
      ensures logProbs[..] == Softmax(nm, old(logProbs[..]))
    {
      ghost var s := logProbs[..];
      var k := logProbs.Length;
      var sum := ExpShift(nm, logProbs, maxLogProb);
      ghost var e := logProbs[..];
      assert forall d :: 0 <= d < k ==> e[d] == Exp(nm, s[d] - maxLogProb);
      MaxIsMaximum(s);
      SumExpBounds(nm, s, maxLogProb, k);
      DivideAll(logProbs, sum);
      ghost var p := logProbs[..];
      assert forall d :: 0 <= d < k ==> p[d] == e[d] / sum;
      SoftmaxFromTerms(nm, s, maxLogProb, sum, p);
    }

    /**
      The second pass of predictProba: each entry becomes exp(entry - max),
      and the new entries are summed from left to right.
    */
    static method ExpShift(nm: Numerics, logProbs: array<real>, maxLogProb: real) returns (sum: real)
      modifies logProbs
      ensures forall d :: 0 <= d < logProbs.Length ==> logProbs[d] == Exp(nm, old(logProbs[d]) - maxLogProb)
      ensures sum == SumExp(nm, old(logProbs[..]), maxLogProb, logProbs.Length)
    {
      ghost var s := logProbs[..];
      sum := 0.0;
      for c := 0 to logProbs.Length
        invariant forall d :: 0 <= d < c ==> logProbs[d] == Exp(nm, s[d] - maxLogProb)
        invariant forall d :: c <= d < logProbs.Length ==> logProbs[d] == s[d]
        invariant sum == SumExp(nm, s, maxLogProb, c)
      {
        logProbs[c] := Exp(nm, logProbs[c] - maxLogProb);
        sum := sum + logProbs[c];
      }
    }

    /** The third pass of predictProba: every entry is divided by the sum. */
    static method DivideAll(logProbs: array<real>, sum: real)
      requires sum != 0.0
      modifies logProbs
      ensures forall d :: 0 <= d < logProbs.Length ==> logProbs[d] == old(logProbs[d]) / sum
    {
      for c := 0 to logProbs.Length
        invariant forall d :: 0 <= d < c ==> logProbs[d] == old(logProbs[d]) / sum
        invariant forall d :: c <= d < logProbs.Length ==> logProbs[d] == old(logProbs[d])
      {
        logProbs[c] := logProbs[c] / sum;
      }
    }

    /**
      The Fisher statistic of class c over the first n features: a zero
      feature is skipped, and so is one whose likelihood exp(ll[c, j]) is
      not positive; every other adds -2 ln(exp(ll[c, j])).
    */
    function FisherUpTo(nm: Numerics, c: nat, x: seq<real>, n: nat): real
      requires c < logLikelihood.Length0 && n <= |x| <= logLikelihood.Length1
      reads logLikelihood
      decreases n
    {
      if n == 0 then 0.0
      else
        var prev := FisherUpTo(nm, c, x, n - 1);
        if x[n - 1] == 0.0 then prev
        else
          var prob := Exp(nm, logLikelihood[c, n - 1]);
          if prob > 0.0 then prev + -2.0 * LogQuot(nm, prob, 1.0) else prev
    }

    /** The Fisher statistics of all classes, in class order. */
    function FisherScores(nm: Numerics, x: seq<real>): (f: seq<real>)
      requires Valid() && |x| <= logLikelihood.Length1
      reads logLikelihood
      ensures |f| == logPrior.Length
    {
      seq(logPrior.Length, c requires 0 <= c < logPrior.Length reads logLikelihood => FisherUpTo(nm, c, x, |x|))
    }

    /**
      Only which features are present matters, not their values: two
      inputs that are zero at the same positions get the same statistic.
    */
    lemma {:induction false} FisherSameZeroPattern(nm: Numerics, c: nat, x: seq<real>, x': seq<real>, n: nat)
      requires c < logLikelihood.Length0 && n <= |x| <= logLikelihood.Length1 && |x'| == |x|
      requires forall j :: 0 <= j < n ==> (x[j] == 0.0 <==> x'[j] == 0.0)
      ensures FisherUpTo(nm, c, x, n) == FisherUpTo(nm, c, x', n)
      decreases n
    {
      if n > 0 {
        FisherSameZeroPattern(nm, c, x, x', n - 1);
      }
    }

    /** A document with no present feature has statistic 0 for every class. */
    lemma {:induction false} FisherOfZeros(nm: Numerics, c: nat, x: seq<real>, n: nat)
      requires c < logLikelihood.Length0 && n <= |x| <= logLikelihood.Length1
      requires forall j :: 0 <= j < n ==> x[j] == 0.0
      ensures FisherUpTo(nm, c, x, n) == 0.0
      decreases n
    {
      if n > 0 {
        FisherOfZeros(nm, c, x, n - 1);
      }
    }

    /**
      fisherScore(x): one statistic per class; the prior is never read, so
      two models with the same log-likelihoods give the same statistics.
    */
    method FisherScore(nm: Numerics, x: array<real>) returns (scores: array<real>)
      requires Valid() && x.Length <= logLikelihood.Length1
      ensures fresh(scores)
      ensures scores[..] == FisherScores(nm, x[..])
    {
      scores := new real[logPrior.Length];
      for c := 0 to logPrior.Length
        invariant forall d :: 0 <= d < c ==> scores[d] == FisherUpTo(nm, d, x[..], x.Length)
      {
        var fisher := 0.0;
        for j := 0 to x.Length
          invariant fisher == FisherUpTo(nm, c, x[..], j)
        {
          if x[j] == 0.0 {
            continue;
          }
          var prob := Exp(nm, logLikelihood[c, j]);
          if prob > 0.0 {
            fisher := fisher + -2.0 * LogQuot(nm, prob, 1.0);
          }
        }
        scores[c] := fisher;
      }
    }

    /**
      predictFisher(x): the first class of minimal Fisher statistic, or -1
      when there are no classes (Java starts from best = +infinity).
    */
    method PredictFisher(nm: Numerics, x: array<real>) returns (bestClass: int)
      requires Valid() && x.Length <= logLikelihood.Length1
      ensures logPrior.Length == 0 ==> bestClass == -1
      ensures logPrior.Length > 0 ==> IsFirstArgmin(FisherScores(nm, x[..]), bestClass)
    {
      var fisherScores := FisherScore(nm, x);
      var best := 0.0;
      bestClass := -1;
      for c := 0 to fisherScores.Length
        invariant c == 0 <==> bestClass == -1
        invariant c > 0 ==> 0 <= bestClass < c && best == fisherScores[bestClass]
        invariant forall d :: 0 <= d < c ==> best <= fisherScores[d]
        invariant forall d :: 0 <= d < bestClass ==> best < fisherScores[d]
      {
        if bestClass == -1 || fisherScores[c] < best {
          best := fisherScores[c];
          bestClass := c;
        }
      }
    }
  }

  /**
    The Fisher statistic ignores the prior: two models whose
    log-likelihood matrices agree give the same statistic, whatever their
    log-priors.
  */
  lemma {:induction false} FisherIgnoresPrior(m1: NaiveBayesModel, m2: NaiveBayesModel, nm: Numerics,
                                              c: nat, x: seq<real>, n: nat)
    requires m1.logLikelihood.Length0 == m2.logLikelihood.Length0
    requires m1.logLikelihood.Length1 == m2.logLikelihood.Length1
    requires forall i, j :: 0 <= i < m1.logLikelihood.Length0 && 0 <= j < m1.logLikelihood.Length1 ==>
      m1.logLikelihood[i, j] == m2.logLikelihood[i, j]
    requires c < m1.logLikelihood.Length0 && n <= |x| <= m1.logLikelihood.Length1
    ensures m1.FisherUpTo(nm, c, x, n) == m2.FisherUpTo(nm, c, x, n)
    decreases n
  {
    if n > 0 {
      FisherIgnoresPrior(m1, m2, nm, c, x, n - 1);
    }
  }
}
