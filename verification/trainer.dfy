/**
  trainNaiveBayes: a counting pass over the training matrix (samples per
  class, and per class the column sums of the feature matrix), then the
  estimates: log-priors log(count / N) and Laplace-smoothed
  log-likelihoods log((sum + 1) / total of the smoothed row).
*/
module Trainer {
  import opened Numerics
  import opened NaiveBayes

  /** The number of samples whose class is c. */
  function ClassCount(y: seq<int>, c: int): nat
    decreases |y|
  {
    if |y| == 0 then 0
    else ClassCount(y[..|y| - 1], c) + if y[|y| - 1] == c then 1 else 0
  }

  /** Every row has a column j. */
  ghost predicate HasColumn(rows: seq<seq<real>>, j: int)
  {
    0 <= j && forall i :: 0 <= i < |rows| ==> j < |rows[i]|
  }

  /** The sum of column j over the rows whose class is c, added in row order. */
  function FeatureSum(rows: seq<seq<real>>, y: seq<int>, c: int, j: int): real
    requires |rows| == |y| && HasColumn(rows, j)
    decreases |y|
  {
    if |y| == 0 then 0.0
    else
      var n := |y| - 1;
      FeatureSum(rows[..n], y[..n], c, j) + if y[n] == c then rows[n][j] else 0.0
  }

  /** The sum of column j over all rows. */
  function ColumnSum(rows: seq<seq<real>>, j: int): real
    requires HasColumn(rows, j)
    decreases |rows|
  {
    if |rows| == 0 then 0.0 else ColumnSum(rows[..|rows| - 1], j) + rows[|rows| - 1][j]
  }

  /** The rows of a matrix as sequences. */
  ghost function Rows(X: array2<real>): (rows: seq<seq<real>>)
    reads X
    ensures |rows| == X.Length0
    ensures forall i :: 0 <= i < X.Length0 ==> |rows[i]| == X.Length1
  {
    seq(X.Length0, i requires 0 <= i < X.Length0 reads X =>
      seq(X.Length1, j requires 0 <= j < X.Length1 reads X => X[i, j]))
  }

  /** ClassCount(y, 0) + ... + ClassCount(y, k - 1) */
  function ClassTotal(y: seq<int>, k: nat): nat
  {
    if k == 0 then 0 else ClassTotal(y, k - 1) + ClassCount(y, k - 1)
  }

  /** FeatureSum(rows, y, 0, j) + ... + FeatureSum(rows, y, k - 1, j) */
  function FeatureTotal(rows: seq<seq<real>>, y: seq<int>, k: nat, j: int): real
    requires |rows| == |y| && HasColumn(rows, j)
  {
    if k == 0 then 0.0 else FeatureTotal(rows, y, k - 1, j) + FeatureSum(rows, y, k - 1, j)
  }

  /** A sample of class v adds one to the total of classes below k when v is one of them. */
  lemma {:induction false} ClassTotalAppend(y: seq<int>, v: int, k: nat)
    ensures ClassTotal(y + [v], k) == ClassTotal(y, k) + if 0 <= v < k then 1 else 0
  {
    assert (y + [v])[..|y|] == y;
    if k > 0 {
      ClassTotalAppend(y, v, k - 1);
    }
  }

  /**
    When every class code is below k, the class counts of classes 0..k-1
    add up to the number of samples: every sample is counted once.
  */
  lemma {:induction false} ClassCountsSumToN(y: seq<int>, k: nat)
    requires forall i :: 0 <= i < |y| ==> 0 <= y[i] < k
    ensures ClassTotal(y, k) == |y|
    decreases |y|
  {
    if |y| == 0 {
      ClassTotalZero(k);
    } else {
      var n := |y| - 1;
      assert y == y[..n] + [y[n]];
      ClassCountsSumToN(y[..n], k);
      ClassTotalAppend(y[..n], y[n], k);
    }
  }

  /** No samples, no counts. */
  lemma {:induction false} ClassTotalZero(k: nat)
    ensures ClassTotal([], k) == 0
  {
    if k > 0 {
      ClassTotalZero(k - 1);
    }
  }

  /** A row of class v adds its entry to the total of classes below k when v is one of them. */
  lemma {:induction false} FeatureTotalAppend(rows: seq<seq<real>>, y: seq<int>, r: seq<real>, v: int, k: nat, j: int)
    requires |rows| == |y| && HasColumn(rows, j) && j < |r|
    ensures HasColumn(rows + [r], j)
    ensures FeatureTotal(rows + [r], y + [v], k, j) == FeatureTotal(rows, y, k, j) + if 0 <= v < k then r[j] else 0.0
  {
    assert (rows + [r])[..|rows|] == rows && (y + [v])[..|y|] == y;
    if k > 0 {
      FeatureTotalAppend(rows, y, r, v, k - 1, j);
    }
  }

  /** No rows, no sums. */
  lemma {:induction false} FeatureTotalZero(k: nat, j: int)
    requires 0 <= j
    ensures FeatureTotal([], [], k, j) == 0.0
  {
    if k > 0 {
      FeatureTotalZero(k - 1, j);
    }
  }

  /**
    When every class code is below k, the per-class feature sums of a
    column add up to the column's sum: the classes partition the rows.
  */
  lemma {:induction false} FeatureSumsPartitionColumn(rows: seq<seq<real>>, y: seq<int>, k: nat, j: int)
    requires |rows| == |y| && HasColumn(rows, j)
    requires forall i :: 0 <= i < |y| ==> 0 <= y[i] < k
    ensures FeatureTotal(rows, y, k, j) == ColumnSum(rows, j)
    decreases |y|
  {
    if |y| == 0 {
      FeatureTotalZero(k, j);
      assert rows == [] && y == [];
    } else {
      var n := |y| - 1;
      assert rows == rows[..n] + [rows[n]] && y == y[..n] + [y[n]];
      FeatureSumsPartitionColumn(rows[..n], y[..n], k, j);
      FeatureTotalAppend(rows[..n], y[..n], rows[n], y[n], k, j);
    }
  }

  /** A class that some sample has is counted at least once, and no class more than N times. */
  lemma {:induction false} ClassCountBounds(y: seq<int>, c: int)
    ensures ClassCount(y, c) <= |y|
    ensures c in y ==> ClassCount(y, c) >= 1
    decreases |y|
  {
    if |y| > 0 {
      var n := |y| - 1;
      ClassCountBounds(y[..n], c);
      assert y == y[..n] + [y[n]];
    }
  }

  /**
    The counting phase of trainNaiveBayes: classCounts[c] is the number of
    samples of class c and featureSums[c, j] the sum of X[i, j] over them.
  */
  method CountClasses(X: array2<real>, y: array<int>, nClasses: nat)
    returns (classCounts: array<real>, featureSums: array2<real>)
    requires y.Length >= X.Length0
    requires forall i :: 0 <= i < X.Length0 ==> 0 <= y[i] < nClasses
    ensures fresh(classCounts) && fresh(featureSums)
    ensures classCounts.Length == nClasses
    ensures featureSums.Length0 == nClasses && featureSums.Length1 == X.Length1
    ensures forall c :: 0 <= c < nClasses ==> classCounts[c] == ClassCount(y[..X.Length0], c) as real
    ensures forall c, j :: 0 <= c < nClasses && 0 <= j < X.Length1 ==>
      featureSums[c, j] == FeatureSum(Rows(X), y[..X.Length0], c, j)
  {
    var n, d := X.Length0, X.Length1;
    ghost var rows := Rows(X);
    ghost var codes := y[..n];
    classCounts := new real[nClasses](_ => 0.0);
    featureSums := new real[nClasses, d]((_, _) => 0.0);
    for i := 0 to n
      invariant forall c :: 0 <= c < nClasses ==> classCounts[c] == ClassCount(codes[..i], c) as real
      invariant forall c, j :: 0 <= c < nClasses && 0 <= j < d ==>
        featureSums[c, j] == FeatureSum(rows[..i], codes[..i], c, j)
    {
      var cls := y[i];
      assert codes[..i + 1][..i] == codes[..i] && rows[..i + 1][..i] == rows[..i];
      classCounts[cls] := classCounts[cls] + 1.0;
      AddRow(featureSums, X, cls, i);
    }
    assert codes[..n] == codes && rows[..n] == rows;
  }

  /** featureSums[cls][j] += X[i][j] for every column j. */
  method AddRow(featureSums: array2<real>, X: array2<real>, cls: nat, i: nat)
    requires cls < featureSums.Length0 && i < X.Length0 && featureSums.Length1 == X.Length1
    requires featureSums != X
    modifies featureSums
    ensures forall c, j :: 0 <= c < featureSums.Length0 && 0 <= j < featureSums.Length1 ==>
      featureSums[c, j] == old(featureSums[c, j]) + if c == cls then X[i, j] else 0.0
  {
    for j := 0 to X.Length1
      invariant forall c, k :: 0 <= c < featureSums.Length0 && 0 <= k < featureSums.Length1 ==>
        featureSums[c, k] == old(featureSums[c, k]) + if c == cls && k < j then X[i, k] else 0.0
    {
      featureSums[cls, j] := featureSums[cls, j] + X[i, j];
    }
  }

  /** sum += featureSums[c][j] + alpha for every column j, from 0.0. */
  method SmoothedRowSum(featureSums: array2<real>, c: nat) returns (sum: real)
    requires c < featureSums.Length0
    ensures sum == RowTotal(featureSums, c, featureSums.Length1)
  {
    sum := 0.0;
    for j := 0 to featureSums.Length1
      invariant sum == RowTotal(featureSums, c, j)
    {
      sum := sum + (featureSums[c, j] + 1.0);
    }
  }

  /** logLikelihood[c][j] = Math.log((featureSums[c][j] + alpha) / sum) for every column j. */
  method FillLikelihoodRow(nm: Numerics, logLikelihood: array2<real>, c: nat, featureSums: array2<real>, sum: real)
    requires c < logLikelihood.Length0 && c < featureSums.Length0
    requires logLikelihood.Length1 == featureSums.Length1 && logLikelihood != featureSums
    modifies logLikelihood
    ensures forall e, k :: 0 <= e < logLikelihood.Length0 && e != c && 0 <= k < logLikelihood.Length1 ==>
      logLikelihood[e, k] == old(logLikelihood[e, k])
    ensures forall k :: 0 <= k < logLikelihood.Length1 ==>
      logLikelihood[c, k] == LogQuot(nm, featureSums[c, k] + 1.0, sum)
  {
    for j := 0 to logLikelihood.Length1
      invariant forall e, k :: 0 <= e < logLikelihood.Length0 && e != c && 0 <= k < logLikelihood.Length1 ==>
        logLikelihood[e, k] == old(logLikelihood[e, k])
      invariant forall k :: 0 <= k < j ==> logLikelihood[c, k] == LogQuot(nm, featureSums[c, k] + 1.0, sum)
    {
      logLikelihood[c, j] := LogQuot(nm, featureSums[c, j] + 1.0, sum);
    }
  }

  /** (fs[c][0] + 1) + ... + (fs[c][k-1] + 1), added left to right from 0.0. */
  function RowTotal(fs: array2<real>, c: nat, k: nat): real
    requires c < fs.Length0 && k <= fs.Length1
    reads fs
  {
    if k == 0 then 0.0 else RowTotal(fs, c, k - 1) + (fs[c, k - 1] + 1.0)
  }

  /** The smoothing total of the feature-sum array is that of the per-class feature sums. */
  lemma {:induction false} RowTotalIsSmoothedTotal(fs: array2<real>, rows: seq<seq<real>>, y: seq<int>, c: nat, k: nat)
    requires c < fs.Length0 && k <= fs.Length1
    requires |rows| == |y| && forall j :: 0 <= j < k ==> HasColumn(rows, j)
    requires forall j :: 0 <= j < k ==> fs[c, j] == FeatureSum(rows, y, c, j)
    ensures RowTotal(fs, c, k) == SmoothedTotal(rows, y, c, k)
  {
    if k > 0 {
      RowTotalIsSmoothedTotal(fs, rows, y, c, k - 1);
    }
  }

  /**
    The estimation phase of trainNaiveBayes: logPrior[c] = log(count / N)
    and logLikelihood[c][j] = log((featureSums[c][j] + 1) / row total).
  */
  method Estimate(nm: Numerics, classCounts: array<real>, featureSums: array2<real>, n: nat)
    returns (logPrior: array<real>, logLikelihood: array2<real>)
    requires classCounts.Length == featureSums.Length0
    ensures fresh(logPrior) && fresh(logLikelihood)
    ensures logPrior.Length == classCounts.Length
    ensures logLikelihood.Length0 == featureSums.Length0 && logLikelihood.Length1 == featureSums.Length1
    ensures forall c :: 0 <= c < logPrior.Length ==> logPrior[c] == LogQuot(nm, classCounts[c], n as real)
    ensures forall c, j :: 0 <= c < logLikelihood.Length0 && 0 <= j < logLikelihood.Length1 ==>
      logLikelihood[c, j] == LogQuot(nm, featureSums[c, j] + 1.0, RowTotal(featureSums, c, featureSums.Length1))
  {
    var k, d := classCounts.Length, featureSums.Length1;
    logPrior := new real[k];
    logLikelihood := new real[k, d];
    for c := 0 to k
      modifies logPrior, logLikelihood
      invariant forall e :: 0 <= e < c ==> logPrior[e] == LogQuot(nm, classCounts[e], n as real)
      invariant forall e, j :: 0 <= e < c && 0 <= j < d ==>
        logLikelihood[e, j] == LogQuot(nm, featureSums[e, j] + 1.0, RowTotal(featureSums, e, d))
    {
      logPrior[c] := LogQuot(nm, classCounts[c], n as real);
      var sum := SmoothedRowSum(featureSums, c);
      FillLikelihoodRow(nm, logLikelihood, c, featureSums, sum);
    }
  }

  /** (featureSums[c][0] + 1) + ... + (featureSums[c][k-1] + 1), added left to right from 0.0. */
  function SmoothedTotal(rows: seq<seq<real>>, y: seq<int>, c: int, k: nat): real
    requires |rows| == |y| && forall j :: 0 <= j < k ==> HasColumn(rows, j)
  {
    if k == 0 then 0.0 else SmoothedTotal(rows, y, c, k - 1) + (FeatureSum(rows, y, c, k - 1) + 1.0)
  }

  /**
    The model is the one trained on these rows and class codes: k classes,
    d features, log-prior log(count / N) per class and log-likelihood
    log((featureSum + 1) / smoothed row total) per class and feature.
  */
  ghost predicate ModelFits(model: NaiveBayesModel, nm: Numerics, rows: seq<seq<real>>, y: seq<int>, k: nat, d: nat)
    reads model.logPrior, model.logLikelihood
  {
    && model.Valid()
    && model.logPrior.Length == k
    && model.logLikelihood.Length1 == d
    && |rows| == |y|
    && (forall j :: 0 <= j < d ==> HasColumn(rows, j))
    && (forall c :: 0 <= c < k ==> model.logPrior[c] == LogQuot(nm, ClassCount(y, c) as real, |y| as real))
    && (forall c, j :: 0 <= c < k && 0 <= j < d ==>
          model.logLikelihood[c, j] == LogQuot(nm, FeatureSum(rows, y, c, j) + 1.0, SmoothedTotal(rows, y, c, d)))
  }

  /**
    trainNaiveBayes(X, y, nClasses): the model fitted to the rows of X and
    the first N class codes, with alpha = 1.
  */
  method TrainNaiveBayes(nm: Numerics, X: array2<real>, y: array<int>, nClasses: nat)
    returns (model: NaiveBayesModel)
    requires X.Length0 >= 1 && y.Length >= X.Length0
    requires forall i :: 0 <= i < X.Length0 ==> 0 <= y[i] < nClasses
    ensures fresh(model) && fresh(model.logPrior) && fresh(model.logLikelihood)
    ensures ModelFits(model, nm, Rows(X), y[..X.Length0], nClasses, X.Length1)
  {
    var n, d := X.Length0, X.Length1;
    ghost var rows := Rows(X);
    ghost var codes := y[..n];
    var classCounts, featureSums := CountClasses(X, y, nClasses);
    var logPrior, logLikelihood := Estimate(nm, classCounts, featureSums, n);
    forall c | 0 <= c < nClasses
      ensures RowTotal(featureSums, c, d) == SmoothedTotal(rows, codes, c, d)
    {
      RowTotalIsSmoothedTotal(featureSums, rows, codes, c, d);
    }
    model := new NaiveBayesModel(logPrior, logLikelihood);
  }
}
