/**
  Training samples, the vocabulary (the lexicographically sorted union of
  all their tokens) and the document frequency of every vocabulary term.
*/
module Corpus {
  import opened Lex
  import opened Tokenizer

  /** An immutable (text, label) pair. */
  datatype Sample = Sample(text: string, labelName: string)

  /** The tokens of one sample, as a set. */
  function TokenSet(text: string, stem: Stemmer): set<string>
  {
    set t | t in Tokens(text, stem)
  }

  /** The union of the token sets of all samples. */
  function AllTokens(samples: seq<Sample>, stem: Stemmer): set<string>
    decreases |samples|
  {
    if |samples| == 0 then {}
    else AllTokens(samples[..|samples| - 1], stem) + TokenSet(samples[|samples| - 1].text, stem)
  }

  /** A term is in the union exactly when some sample's tokens hold it. */
  lemma {:induction false} AllTokensMember(samples: seq<Sample>, stem: Stemmer, t: string)
    ensures t in AllTokens(samples, stem) <==>
      exists i :: 0 <= i < |samples| && t in Tokens(samples[i].text, stem)
    decreases |samples|
  {
    if |samples| > 0 {
      var init := samples[..|samples| - 1];
      var last := samples[|samples| - 1];
      var lastTokens := Tokens(last.text, stem);
      AllTokensMember(init, stem, t);
      assert AllTokens(samples, stem) == AllTokens(init, stem) + TokenSet(last.text, stem);
      assert t in TokenSet(last.text, stem) <==> t in lastTokens;
      if t in AllTokens(init, stem) {
        var i :| 0 <= i < |init| && t in Tokens(init[i].text, stem);
        assert samples[i] == init[i];
      }
      if exists i :: 0 <= i < |samples| && t in Tokens(samples[i].text, stem) {
        var i :| 0 <= i < |samples| && t in Tokens(samples[i].text, stem);
        if i < |init| {
          assert init[i] == samples[i];
        } else {
          assert samples[i] == last;
        }
      }
    }
  }

  /** What buildVocab returns for these samples. */
  ghost predicate IsVocabulary(vocab: seq<string>, samples: seq<Sample>, stem: Stemmer)
  {
    StrictlySorted(vocab) && forall t :: t in vocab <==> t in AllTokens(samples, stem)
  }

  /** The vocabulary of a sample list is unique: repeated builds agree term for term. */
  lemma VocabularyUnique(v1: seq<string>, v2: seq<string>, samples: seq<Sample>, stem: Stemmer)
    requires IsVocabulary(v1, samples, stem) && IsVocabulary(v2, samples, stem)
    ensures v1 == v2
  {
    SortedListingUnique(v1, v2);
  }

  /** buildVocab(samples) */
  method BuildVocab(samples: seq<Sample>, stem: Stemmer) returns (vocab: seq<string>)
    ensures IsVocabulary(vocab, samples, stem)
    ensures forall t :: t in vocab <==>
      exists i :: 0 <= i < |samples| && t in Tokens(samples[i].text, stem)
  {
    var vocabSet: set<string> := {};
    for i := 0 to |samples|
      invariant vocabSet == AllTokens(samples[..i], stem)
    {
      assert samples[..i + 1][..i] == samples[..i];
      var tokens := Tokenize(samples[i].text, stem);
      for k := 0 to |tokens|
        invariant vocabSet == AllTokens(samples[..i], stem) + set t | t in tokens[..k]
      {
        assert tokens[..k + 1] == tokens[..k] + [tokens[k]];
        vocabSet := vocabSet + {tokens[k]};
      }
      assert tokens[..|tokens|] == tokens;
    }
    assert samples[..|samples|] == samples;
    vocab := SortedList(vocabSet);
    forall t
      ensures t in vocab <==> exists i :: 0 <= i < |samples| && t in Tokens(samples[i].text, stem)
    {
      AllTokensMember(samples, stem, t);
    }
  }

  /** The number of samples whose token set holds t. */
  function DocCount(samples: seq<Sample>, t: string, stem: Stemmer): nat
    decreases |samples|
  {
    if |samples| == 0 then 0
    else
      DocCount(samples[..|samples| - 1], t, stem)
        + if t in Tokens(samples[|samples| - 1].text, stem) then 1 else 0
  }

  /**
    A document frequency lies between 0 and the number of samples, and is
    at least 1 for a term that occurs in some sample, in particular for
    every term of the vocabulary built from the same samples.
  */
  lemma {:induction false} DocCountBounds(samples: seq<Sample>, t: string, stem: Stemmer)
    ensures DocCount(samples, t, stem) <= |samples|
    ensures t in AllTokens(samples, stem) ==> DocCount(samples, t, stem) >= 1
    decreases |samples|
  {
    if |samples| > 0 {
      DocCountBounds(samples[..|samples| - 1], t, stem);
    }
  }

  /** documentFrequency(samples, vocab) */
  method DocumentFrequency(samples: seq<Sample>, vocab: seq<string>, stem: Stemmer)
    returns (df: map<string, int>)
    ensures forall t :: t in df <==> t in vocab
    ensures forall t :: t in df ==> df[t] == DocCount(samples, t, stem)
  {
    df := map[];
    for k := 0 to |vocab|
      invariant forall t :: t in df <==> t in vocab[..k]
      invariant forall t :: t in df ==> df[t] == 0
    {
      assert vocab[..k + 1] == vocab[..k] + [vocab[k]];
      df := df[vocab[k] := 0];
    }
    assert vocab[..|vocab|] == vocab;
    for i := 0 to |samples|
      invariant forall t :: t in df <==> t in vocab
      invariant forall t :: t in df ==> df[t] == DocCount(samples[..i], t, stem)
    {
      assert samples[..i + 1][..i] == samples[..i];
      var tokens := Tokenize(samples[i].text, stem);
      var tokensInDoc := set t | t in tokens;
      var rest := tokensInDoc;
      while rest != {}
        invariant rest <= tokensInDoc
        invariant forall t :: t in df <==> t in vocab
        invariant forall t :: t in df ==>
          df[t] == DocCount(samples[..i], t, stem) + if t in tokensInDoc && t !in rest then 1 else 0
        decreases |rest|
      {
        var token :| token in rest;
        if token in df {
          df := df[token := df[token] + 1];
        }
        rest := rest - {token};
      }
    }
    assert samples[..|samples|] == samples;
  }
}
