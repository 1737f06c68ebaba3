/**
  TF-IDF vectorisation against a fixed vocabulary: entry j of a document's
  vector is the number of times vocab[j] occurs among its tokens, times
  log(N / df(vocab[j])), with df defaulting to 1 for a term missing from
  the table. Tokens outside the vocabulary are never looked at.
*/
module Vectorizer {
  import opened Tokenizer
  import opened Corpus
  import opened Numerics

  /** How often term occurs in tokens. */
  function TermFrequency(tokens: seq<string>, term: string): nat
    decreases |tokens|
  {
    if |tokens| == 0 then 0
    else TermFrequency(tokens[..|tokens| - 1], term) + if tokens[|tokens| - 1] == term then 1 else 0
  }

  /** A term occurs a positive number of times exactly when it is among the tokens. */
  lemma {:induction false} TermFrequencyPositive(tokens: seq<string>, term: string)
    ensures TermFrequency(tokens, term) > 0 <==> term in tokens
    decreases |tokens|
  {
    if |tokens| > 0 {
      var init := tokens[..|tokens| - 1];
      TermFrequencyPositive(init, term);
      assert tokens == init + [tokens[|tokens| - 1]];
    }
  }

  /** Counting over a concatenation adds the counts of the parts. */
  lemma {:induction false} TermFrequencyAppend(a: seq<string>, b: seq<string>, term: string)
    ensures TermFrequency(a + b, term) == TermFrequency(a, term) + TermFrequency(b, term)
    decreases |b|
  {
    if |b| > 0 {
      var ab := a + b;
      assert ab[..|ab| - 1] == a + b[..|b| - 1];
      TermFrequencyAppend(a, b[..|b| - 1], term);
    } else {
      assert a + b == a;
    }
  }

  /** df.getOrDefault(term, 1) */
  function DfOrOne(df: map<string, int>, term: string): int
  {
    if term in df then df[term] else 1
  }

  /** Math.log((double) n / dfTerm) */
  function Idf(nm: Numerics, n: int, dfTerm: int): real
  {
    nm.logQuot(n as real, dfTerm as real)
  }

  /** tfTerm * Math.log((double) n / dfTerm) */
  function Weight(nm: Numerics, tokens: seq<string>, term: string, df: map<string, int>, n: int): real
  {
    (TermFrequency(tokens, term) as real) * Idf(nm, n, DfOrOne(df, term))
  }

  /** The whole vector of one document, entry by entry. */
  function TfIdfVector(nm: Numerics, tokens: seq<string>, vocab: seq<string>, df: map<string, int>, n: int)
    : (x: seq<real>)
    ensures |x| == |vocab|
  {
    seq(|vocab|, j requires 0 <= j < |vocab| => Weight(nm, tokens, vocab[j], df, n))
  }

  /** Inserting tokens that are not the term, anywhere, leaves the term's count unchanged. */
  lemma TermFrequencyInsertAbsent(pre: seq<string>, extra: seq<string>, post: seq<string>, term: string)
    requires term !in extra
    ensures TermFrequency(pre + extra + post, term) == TermFrequency(pre + post, term)
  {
    TermFrequencyAppend(pre + extra, post, term);
    TermFrequencyAppend(pre, extra, term);
    TermFrequencyAppend(pre, post, term);
    TermFrequencyPositive(extra, term);
  }

  /**
    Tokens outside the vocabulary contribute nothing: inserting any of
    them anywhere in a document leaves its vector unchanged.
  */
  lemma OutOfVocabularyIgnored(nm: Numerics, pre: seq<string>, extra: seq<string>, post: seq<string>,
                               vocab: seq<string>, df: map<string, int>, n: int)
    requires forall t :: t in extra ==> t !in vocab
    ensures TfIdfVector(nm, pre + extra + post, vocab, df, n) == TfIdfVector(nm, pre + post, vocab, df, n)
  {
    var a, b := TfIdfVector(nm, pre + extra + post, vocab, df, n), TfIdfVector(nm, pre + post, vocab, df, n);
    forall j | 0 <= j < |vocab|
      ensures a[j] == b[j]
    {
      assert vocab[j] in vocab;
      TermFrequencyInsertAbsent(pre, extra, post, vocab[j]);
    }
  }

  /** The tf map: for (String token : tokens) tf.put(token, tf.getOrDefault(token, 0) + 1) */
  method TermCounts(tokens: seq<string>) returns (tf: map<string, int>)
    ensures forall t :: t in tf <==> t in tokens
    ensures forall t :: t in tf ==> tf[t] == TermFrequency(tokens, t)
  {
    tf := map[];
    for k := 0 to |tokens|
      invariant forall t :: t in tf <==> t in tokens[..k]
      invariant forall t :: t in tf ==> tf[t] == TermFrequency(tokens[..k], t)
    {
      assert tokens[..k + 1] == tokens[..k] + [tokens[k]];
      assert tokens[..k + 1][..k] == tokens[..k];
      var token := tokens[k];
      TermFrequencyPositive(tokens[..k], token);
      tf := tf[token := (if token in tf then tf[token] else 0) + 1];
    }
    assert tokens[..|tokens|] == tokens;
  }

  /** The loop body's product is the entry's weight once tf and df are looked up. */
  lemma WeightOfCounts(nm: Numerics, tokens: seq<string>, term: string, df: map<string, int>, n: int,
                       tfTerm: int, dfTerm: int)
    requires term in tokens ==> tfTerm == TermFrequency(tokens, term)
    requires term !in tokens ==> tfTerm == 0
    requires dfTerm == DfOrOne(df, term)
    ensures (tfTerm as real) * Idf(nm, n, dfTerm) == Weight(nm, tokens, term, df, n)
  {
  }

  /** The per-document part of the single-document form: tf map, then one weight per term. */
  method WeighTokens(nm: Numerics, tokens: seq<string>, vocab: seq<string>, df: map<string, int>, n: int)
    returns (x: array<real>)
    ensures fresh(x)
    ensures x.Length == |vocab|
    ensures forall j :: 0 <= j < |vocab| ==> x[j] == TfIdfVector(nm, tokens, vocab, df, n)[j]
  {
    var tf := TermCounts(tokens);
    x := new real[|vocab|];
    for j := 0 to |vocab|
      invariant forall k :: 0 <= k < j ==> x[k] == Weight(nm, tokens, vocab[k], df, n)
    {
      var term := vocab[j];
      var tfTerm := if term in tf then tf[term] else 0;
      var dfTerm := if term in df then df[term] else 1;
      var idf := Idf(nm, n, dfTerm);
      WeightOfCounts(nm, tokens, term, df, n, tfTerm, dfTerm);
      x[j] := (tfTerm as real) * idf;
    }
  }

  /** vectorizeTfIdf(sentence, vocab, df, N): the single-document form. */
  method VectorizeText(nm: Numerics, stem: Stemmer, sentence: string, vocab: seq<string>,
                       df: map<string, int>, n: int)
    returns (x: array<real>)
    ensures fresh(x)
    ensures x.Length == |vocab|
    ensures forall j :: 0 <= j < |vocab| ==> x[j] == TfIdfVector(nm, Tokens(sentence, stem), vocab, df, n)[j]
  {
    var tokens := Tokenize(sentence, stem);
    x := WeighTokens(nm, tokens, vocab, df, n);
  }

  /** The per-document part of the batch form: tf map, then row i of X. */
  method FillRow(X: array2<real>, i: nat, nm: Numerics, tokens: seq<string>,
                 vocab: seq<string>, df: map<string, int>, n: int)
    requires i < X.Length0 && X.Length1 == |vocab|
    modifies X
    ensures forall p, k :: 0 <= p < X.Length0 && p != i && 0 <= k < X.Length1 ==> X[p, k] == old(X[p, k])
    ensures forall k :: 0 <= k < |vocab| ==> X[i, k] == TfIdfVector(nm, tokens, vocab, df, n)[k]
  {
    var tf := TermCounts(tokens);
    for j := 0 to |vocab|
      invariant forall p, k :: 0 <= p < X.Length0 && p != i && 0 <= k < X.Length1 ==> X[p, k] == old(X[p, k])
      invariant forall k :: 0 <= k < j ==> X[i, k] == Weight(nm, tokens, vocab[k], df, n)
    {
      var term := vocab[j];
      var tfTerm := if term in tf then tf[term] else 0;
      var dfTerm := if term in df then df[term] else 1;
      var idf := Idf(nm, n, dfTerm);
      WeightOfCounts(nm, tokens, term, df, n, tfTerm, dfTerm);
      X[i, j] := (tfTerm as real) * idf;
    }
  }

  /**
    vectorizeTfIdf(samples, vocab, df): the batch form. Row i is the
    single-document vector of sample i, with N the size of the batch.
  */
  method VectorizeBatch(nm: Numerics, stem: Stemmer, samples: seq<Sample>, vocab: seq<string>,
                        df: map<string, int>)
    returns (X: array2<real>)
    ensures fresh(X)
    ensures X.Length0 == |samples| && X.Length1 == |vocab|
    ensures forall i, j :: 0 <= i < |samples| && 0 <= j < |vocab| ==>
      X[i, j] == TfIdfVector(nm, Tokens(samples[i].text, stem), vocab, df, |samples|)[j]
  {
    var n := |samples|;
    X := new real[n, |vocab|];
    for i := 0 to n
      invariant forall p, j :: 0 <= p < i && 0 <= j < |vocab| ==>
        X[p, j] == TfIdfVector(nm, Tokens(samples[p].text, stem), vocab, df, n)[j]
    {
      var tokens := Tokenize(samples[i].text, stem);
      FillRow(X, i, nm, tokens, vocab, df, n);
    }
  }
}
