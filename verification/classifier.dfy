/**
  The classifier's entry points: train composes vocabulary, document
  frequencies, the TF-IDF matrix, the label codec and the estimator;
  predict and predictLabelProbability vectorise a text against the stored
  vocabulary and consult the model.
*/
module Classifier {
  import opened Tokenizer
  import opened Corpus
  import opened Vectorizer
  import opened Labels
  import opened Numerics
  import opened Decision
  import opened NaiveBayes
  import opened Trainer

  /** Everything predict needs, as train leaves it. */
  datatype TrainedClassifier = TrainedClassifier(
    model: NaiveBayesModel,
    vocab: seq<string>,
    labelMap: map<string, int>,
    vocabDf: map<string, int>,
    trainDocCount: int)

  datatype Error = IllegalArgument(message: string)

  datatype Result<T> = Success(value: T) | Failure(error: Error)

  /** The class code of every sample, in sample order. */
  ghost function Codes(samples: seq<Sample>, labelMap: map<string, int>): (y: seq<int>)
    requires forall i :: 0 <= i < |samples| ==> samples[i].labelName in labelMap
    ensures |y| == |samples|
  {
    seq(|samples|, i requires 0 <= i < |samples| => labelMap[samples[i].labelName])
  }

  /** The TF-IDF rows of the training matrix, N being the number of samples. */
  ghost function TrainingRows(nm: Numerics, stem: Stemmer, samples: seq<Sample>, vocab: seq<string>,
                              df: map<string, int>): (rows: seq<seq<real>>)
    ensures |rows| == |samples|
    ensures forall i :: 0 <= i < |rows| ==> |rows[i]| == |vocab|
  {
    seq(|samples|, i requires 0 <= i < |samples| =>
      TfIdfVector(nm, Tokens(samples[i].text, stem), vocab, df, |samples|))
  }

  /** The vocabulary, document frequencies, label map and count of tc are those of the samples. */
  ghost predicate IndexesOf(tc: TrainedClassifier, stem: Stemmer, samples: seq<Sample>)
  {
    && tc.trainDocCount == |samples|
    && IsVocabulary(tc.vocab, samples, stem)
    && (forall t :: t in tc.vocabDf <==> t in tc.vocab)
    && (forall t :: t in tc.vocabDf ==> tc.vocabDf[t] == DocCount(samples, t, stem))
    && EncodesFirstSeen(tc.labelMap, samples)
    && (forall i :: 0 <= i < |samples| ==> samples[i].labelName in tc.labelMap)
  }

  /** tc is what train(samples) returns. */
  ghost predicate TrainedOn(tc: TrainedClassifier, nm: Numerics, stem: Stemmer, samples: seq<Sample>)
    reads tc.model.logPrior, tc.model.logLikelihood
  {
    && |samples| >= 2
    && IndexesOf(tc, stem, samples)
    && ModelFits(tc.model, nm, TrainingRows(nm, stem, samples, tc.vocab, tc.vocabDf),
                 Codes(samples, tc.labelMap), |tc.labelMap|, |tc.vocab|)
  }

  /** The rows of the batch matrix are the training rows. */
  lemma BatchRows(nm: Numerics, stem: Stemmer, samples: seq<Sample>, vocab: seq<string>,
                  df: map<string, int>, X: array2<real>)
    requires X.Length0 == |samples| && X.Length1 == |vocab|
    requires forall i, j :: 0 <= i < |samples| && 0 <= j < |vocab| ==>
      X[i, j] == TfIdfVector(nm, Tokens(samples[i].text, stem), vocab, df, |samples|)[j]
    ensures Rows(X) == TrainingRows(nm, stem, samples, vocab, df)
  {
    var rows := TrainingRows(nm, stem, samples, vocab, df);
    forall i | 0 <= i < |samples|
      ensures Rows(X)[i] == rows[i]
    {
      assert forall j :: 0 <= j < |vocab| ==> Rows(X)[i][j] == X[i, j];
    }
  }

  /**
    train(samples): fails with an illegal-argument error on fewer than two
    samples; otherwise the vocabulary, document frequencies, label map and
    model are those of the samples, and trainDocCount is their number.
  */
  method Train(nm: Numerics, stem: Stemmer, samples: seq<Sample>) returns (r: Result<TrainedClassifier>)
    ensures r.Failure? <==> |samples| < 2
    ensures r.Failure? ==> r.error == IllegalArgument("Need at least 2 samples")
    ensures r.Success? ==> fresh(r.value.model) && TrainedOn(r.value, nm, stem, samples)
    ensures r.Success? ==> fresh(r.value.model.logPrior) && fresh(r.value.model.logLikelihood)
  {
    if |samples| < 2 {
      return Failure(IllegalArgument("Need at least 2 samples"));
    }
    var vocab := BuildVocab(samples, stem);
    var df := DocumentFrequency(samples, vocab, stem);
    var X := VectorizeBatch(nm, stem, samples, vocab, df);
    var labelMap := EncodeLabels(samples);
    EncodingDense(labelMap, samples);
    var y := EncodeLabelsArray(samples, labelMap);
    BatchRows(nm, stem, samples, vocab, df, X);
    assert y[..|samples|] == Codes(samples, labelMap);
    var nb := TrainNaiveBayes(nm, X, y, |labelMap|);
    r := Success(TrainedClassifier(nb, vocab, labelMap, df, |samples|));
  }

  /** What predict and predictLabelProbability rely on. */
  ghost predicate Wellformed(tc: TrainedClassifier)
  {
    && tc.model.Valid()
    && tc.model.logLikelihood.Length1 == |tc.vocab|
    && Injective(tc.labelMap)
    && (forall l :: l in tc.labelMap ==> 0 <= tc.labelMap[l] < tc.model.logPrior.Length)
    && (forall c :: 0 <= c < tc.model.logPrior.Length ==> c in tc.labelMap.Values)
  }

  /**
    A trained classifier is well formed and has at least one class; every
    class has between 1 and N training samples, and the class counts add
    up to N, so every log-prior is the log of a ratio in (0, 1]. Every
    vocabulary term occurs in at least one sample, so its document
    frequency is at least 1 and log(N / df) is defined.
  */
  lemma TrainedIsWellformed(tc: TrainedClassifier, nm: Numerics, stem: Stemmer, samples: seq<Sample>)
    requires TrainedOn(tc, nm, stem, samples)
    ensures Wellformed(tc)
    ensures tc.model.logPrior.Length >= 1
    ensures forall c :: 0 <= c < tc.model.logPrior.Length ==>
      1 <= ClassCount(Codes(samples, tc.labelMap), c) <= |samples|
    ensures ClassTotal(Codes(samples, tc.labelMap), |tc.labelMap|) == |samples|
    ensures forall t :: t in tc.vocab ==> t in tc.vocabDf && tc.vocabDf[t] >= 1
  {
    forall t | t in tc.vocab
      ensures t in tc.vocabDf && tc.vocabDf[t] >= 1
    {
      DocCountBounds(samples, t, stem);
    }
    EncodingDense(tc.labelMap, samples);
    LabelOrderProperties(samples);
    var codes := Codes(samples, tc.labelMap);
    forall c | 0 <= c < |tc.labelMap|
      ensures 1 <= ClassCount(codes, c) <= |samples|
    {
      var i := ClassHasSample(tc.labelMap, samples, c);
      assert codes[i] == c;
      ClassCountBounds(codes, c);
    }
    ClassCountsSumToN(codes, |tc.labelMap|);
  }

  /** The vector predict scores: the text's TF-IDF vector against the stored vocabulary. */
  function Features(nm: Numerics, stem: Stemmer, tc: TrainedClassifier, text: string): (x: seq<real>)
    ensures |x| == |tc.vocab|
  {
    TfIdfVector(nm, Tokens(text, stem), tc.vocab, tc.vocabDf, tc.trainDocCount)
  }

  /**
    predict(tc, text): the label of the first class of maximal score, or
    None (Java's null) when there are no classes.
  */
  method Predict(nm: Numerics, stem: Stemmer, tc: TrainedClassifier, text: string) returns (r: Option<string>)
    requires Wellformed(tc)
    ensures tc.model.logPrior.Length == 0 ==> r == None
    ensures tc.model.logPrior.Length > 0 ==>
      r.Some? && r.value in tc.labelMap &&
      IsFirstArgmax(tc.model.Scores(Features(nm, stem, tc, text)), tc.labelMap[r.value])
  {
    var x := VectorizeText(nm, stem, text, tc.vocab, tc.vocabDf, tc.trainDocCount);
    assert x[..] == Features(nm, stem, tc, text);
    var predIdx := tc.model.Predict(x);
    r := InverseLabelMap(tc.labelMap, predIdx);
    if tc.model.logPrior.Length > 0 {
      assert predIdx in tc.labelMap.Values;
    }
  }

  /**
    predictLabelProbability(tc, text, label): 0.0 for a label the
    classifier does not know, otherwise that label's entry of the softmax
    of the scores.
  */
  method PredictLabelProbability(nm: Numerics, stem: Stemmer, tc: TrainedClassifier, text: string, labelName: string)
    returns (p: real)
    requires Wellformed(tc) && ExpBasics(nm)
    ensures 0.0 <= p <= 1.0
    ensures labelName !in tc.labelMap ==> p == 0.0
    ensures labelName in tc.labelMap ==>
      p == Softmax(nm, tc.model.Scores(Features(nm, stem, tc, text)))[tc.labelMap[labelName]]
  {
    var x := VectorizeText(nm, stem, text, tc.vocab, tc.vocabDf, tc.trainDocCount);
    assert x[..] == Features(nm, stem, tc, text);
    var probs := tc.model.PredictProba(nm, x);
    if labelName !in tc.labelMap {
      return 0.0;
    }
    var idx := tc.labelMap[labelName];
    SoftmaxInUnitInterval(nm, tc.model.Scores(x[..]));
    return probs[idx];
  }

  /**
    The label predict returns is the most probable one according to
    predictLabelProbability: no known label has a larger probability.
  */
  lemma PredictedLabelMostProbable(nm: Numerics, stem: Stemmer, tc: TrainedClassifier, text: string, l: string)
    requires Wellformed(tc) && ExpFacts(nm)
    requires l in tc.labelMap && IsFirstArgmax(tc.model.Scores(Features(nm, stem, tc, text)), tc.labelMap[l])
    ensures forall l' :: l' in tc.labelMap ==>
      Softmax(nm, tc.model.Scores(Features(nm, stem, tc, text)))[tc.labelMap[l']] <=
      Softmax(nm, tc.model.Scores(Features(nm, stem, tc, text)))[tc.labelMap[l]]
  {
    SoftmaxFavoursArgmax(nm, tc.model.Scores(Features(nm, stem, tc, text)), tc.labelMap[l]);
  }
}
