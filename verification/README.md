# Naive Bayes text classifier — a Dafny model

This project models the core of a small Java text classifier: a multinomial
Naive Bayes model over TF-IDF features, trained from (text, label) samples.

Training (`train`) runs these steps in order:

1. It rejects fewer than two samples.
2. It tokenizes every text: lower-case, keep `[a-z0-9 ]`, split at spaces, then stem each word.
3. It builds the vocabulary as the lexicographically sorted set of all tokens.
4. It counts the document frequency of every vocabulary term.
5. It builds the TF-IDF matrix.
6. It encodes the labels as the dense indices `0..K-1` in the order each label is first seen.
7. It estimates the log-priors and the Laplace-smoothed log-likelihoods.

Prediction has two entry points:

- `predict` vectorises a text against the stored vocabulary and returns the label of the first class of maximal score.
- `predictLabelProbability` returns one label's entry of the softmax of the scores.

The model class also offers Fisher's combined statistic and the class that minimises it.

The Dafny modules:

- `Lex` is `String.compareTo` and the sort used by `buildVocab`.
- `Tokenizer` is `tokenize`.
- `CsvLine` is `parseCsvLine`.
- `Corpus` covers samples, `buildVocab` and `documentFrequency`.
- `Vectorizer` covers both forms of `vectorizeTfIdf`.
- `Labels` covers `encodeLabels`, `encodeLabelsArray` and `inverseLabelMap`.
- `Numerics` holds `Math.log` and `Math.exp` as parameters.
- `Decision` states argmax, argmin and softmax on a vector of values.
- `NaiveBayes` is the class `NaiveBayesModel`.
- `Trainer` is `trainNaiveBayes`.
- `Classifier` covers `train`, `predict` and `predictLabelProbability`.

The loops of the Java code are Dafny methods with loop invariants. Each method is proved against a specification function, and the lemmas state the properties of that function. `NaiveBayesModel` is a class with two `const` array fields. No method may modify `logPrior` or `logLikelihood`, so scoring never changes the model. Only the static helpers `SoftmaxInPlace`, `ExpShift` and `DivideAll` have a `modifies` clause, and they write only to the fresh result array of `predictProba`.

## Model

| member | source | states |
|---|---|---|
| Lex.Less | text/app/src/main/java/text/NaiveBayesClassifierCSV.java:113 | compareTo(a, b) < 0: the first differing character decides, and a proper prefix comes first |
| Lex.LessIrreflexive | text/app/src/main/java/text/NaiveBayesClassifierCSV.java:113 | compareTo never places a string before itself |
| Lex.LessAsymmetric | text/app/src/main/java/text/NaiveBayesClassifierCSV.java:113 | if a sorts before b, b does not sort before a |
| Lex.LessTransitive | text/app/src/main/java/text/NaiveBayesClassifierCSV.java:113 | the string order used by the sort is transitive |
| Lex.LessTotal | text/app/src/main/java/text/NaiveBayesClassifierCSV.java:113 | any two different strings are ordered one way or the other |
| Lex.SortedDistinct | text/app/src/main/java/text/NaiveBayesClassifierCSV.java:112-113 | a strictly sorted list holds no term twice |
| Lex.SortedListingUnique | text/app/src/main/java/text/NaiveBayesClassifierCSV.java:105-115 | two strictly sorted lists with the same elements are equal, so the vocabulary does not depend on the hash set's iteration order |
| Lex.InsertSorted | text/app/src/main/java/text/NaiveBayesClassifierCSV.java:113 | inserting a new term into a strictly sorted list keeps it strictly sorted and adds exactly that term |
| Lex.SortedList | text/app/src/main/java/text/NaiveBayesClassifierCSV.java:112-113 | the set copied into a list and sorted: strictly increasing and holding exactly the set's elements |
| Tokenizer.LowerAscii | text/app/src/main/java/text/NaiveBayesClassifierCSV.java:173 | an upper-case ASCII letter becomes the corresponding lower-case letter (code + 32); every other character is unchanged |
| Tokenizer.Normalize | text/app/src/main/java/text/NaiveBayesClassifierCSV.java:173 | the length is kept; lower-case letters, digits and spaces are kept; an upper-case letter becomes its lower-case letter; every other character becomes a space |
| Tokenizer.SplitSpaces | text/app/src/main/java/text/NaiveBayesClassifierCSV.java:173 | the split always yields at least one fragment; what the fragments are is stated by SplitSpacesJoin and SplitSpacesFragments |
| Tokenizer.SplitSpacesJoin | text/app/src/main/java/text/NaiveBayesClassifierCSV.java:173 | the split loses nothing: joining the fragments with single spaces gives back the string |
| Tokenizer.SplitSpacesFragments | text/app/src/main/java/text/NaiveBayesClassifierCSV.java:173 | no fragment holds a space, and every character of a fragment comes from the text |
| Tokenizer.StemWords | text/app/src/main/java/text/NaiveBayesClassifierCSV.java:176-181 | the loop body of tokenize over the fragments: skip an empty fragment, skip an empty stem, otherwise append the stem |
| Tokenizer.StemWordsAreStems | text/app/src/main/java/text/NaiveBayesClassifierCSV.java:176-180 | every kept token is the non-empty stem of a non-empty fragment, and every non-empty fragment with a non-empty stem contributes that stem |
| Tokenizer.TokensAreStemsOfWords | text/app/src/main/java/text/NaiveBayesClassifierCSV.java:172-182 | every token is the non-empty stem of a fragment made only of lower-case letters and digits, and every such fragment with a non-empty stem yields its token |
| Tokenizer.Tokens | text/app/src/main/java/text/NaiveBayesClassifierCSV.java:172-182 | the tokens of a text: the stems of the split of the normalised text |
| Tokenizer.Tokenize | text/app/src/main/java/text/NaiveBayesClassifierCSV.java:172-182 | the loop returns exactly the stems of the non-empty fragments, in order, dropping empty stems; no token is empty |
| CsvLine.StripQuotes | text/app/src/main/java/text/NaiveBayesClassifierCSV.java:91-98 | the line with every double quote removed, the characters parseCsvLine keeps |
| CsvLine.InsideQuotes | text/app/src/main/java/text/NaiveBayesClassifierCSV.java:90-92 | whether an odd number of double quotes has been seen |
| CsvLine.UnquotedCommas | text/app/src/main/java/text/NaiveBayesClassifierCSV.java:93-95 | the number of commas seen while not inside quotes |
| CsvLine.JoinExtendLast | text/app/src/main/java/text/NaiveBayesClassifierCSV.java:97 | appending a character to the current field appends it to the joined line |
| CsvLine.JoinNewField | text/app/src/main/java/text/NaiveBayesClassifierCSV.java:94-95 | closing a field at a comma appends that comma to the joined line |
| CsvLine.ParseCsvLine | text/app/src/main/java/text/NaiveBayesClassifierCSV.java:87-102 | one field more than the line has commas outside quotes; no field holds a quote; joining the fields with commas gives the line with its quotes removed; and the fields break exactly at the commas outside quotes (the fields before the k-th such comma join to the unquoted text before it) |
| Corpus.AllTokensMember | text/app/src/main/java/text/NaiveBayesClassifierCSV.java:106-111 | a term is in the collected set exactly when some sample's tokens contain it |
| Corpus.VocabularyUnique | text/app/src/main/java/text/NaiveBayesClassifierCSV.java:105-115 | two vocabularies of the same samples are equal term for term |
| Corpus.BuildVocab | text/app/src/main/java/text/NaiveBayesClassifierCSV.java:105-115 | the vocabulary is strictly sorted and holds exactly the terms that occur in some sample |
| Corpus.DocCountBounds | text/app/src/main/java/text/NaiveBayesClassifierCSV.java:117-129 | a document frequency is at most the number of samples, and at least 1 for a term occurring in some sample, so no vocabulary term has a zero count |
| Corpus.DocumentFrequency | text/app/src/main/java/text/NaiveBayesClassifierCSV.java:117-129 | the keys are exactly the vocabulary; each value counts the samples whose tokens contain the term, once per sample however often it occurs |
| Vectorizer.TermFrequency | text/app/src/main/java/text/NaiveBayesClassifierCSV.java:137 | how often a term occurs among the tokens |
| Vectorizer.TermFrequencyPositive | text/app/src/main/java/text/NaiveBayesClassifierCSV.java:137 | a term's count is positive exactly when it is among the tokens |
| Vectorizer.TermFrequencyAppend | text/app/src/main/java/text/NaiveBayesClassifierCSV.java:137 | counting over concatenated token lists adds the counts |
| Vectorizer.DfOrOne | text/app/src/main/java/text/NaiveBayesClassifierCSV.java:141 | the document frequency of a term, 1 for a term missing from the table |
| Vectorizer.Idf | text/app/src/main/java/text/NaiveBayesClassifierCSV.java:142 | log(N / df) on the document count and the looked-up frequency |
| Vectorizer.Weight | text/app/src/main/java/text/NaiveBayesClassifierCSV.java:140-143 | the TF-IDF weight of one term: its count times its idf |
| Vectorizer.TfIdfVector | text/app/src/main/java/text/NaiveBayesClassifierCSV.java:153 | a document vector has one entry per vocabulary term |
| Vectorizer.TermFrequencyInsertAbsent | text/app/src/main/java/text/NaiveBayesClassifierCSV.java:137 | inserting tokens other than the term anywhere in a list leaves the term's count unchanged |
| Vectorizer.OutOfVocabularyIgnored | text/app/src/main/java/text/NaiveBayesClassifierCSV.java:149-162 | inserting tokens that are not in the vocabulary anywhere in a document (before, between or after its tokens) leaves the vector unchanged |
| Vectorizer.TermCounts | text/app/src/main/java/text/NaiveBayesClassifierCSV.java:152 | the tf map's keys are exactly the tokens, and each maps to its number of occurrences |
| Vectorizer.WeightOfCounts | text/app/src/main/java/text/NaiveBayesClassifierCSV.java:155-159 | the product of the looked-up tf (0 if absent) and log(N/df) (df 1 if absent) is the term's TF-IDF weight |
| Vectorizer.WeighTokens | text/app/src/main/java/text/NaiveBayesClassifierCSV.java:151-161 | a fresh array whose entry j is the TF-IDF weight of vocab[j] in the tokens |
| Vectorizer.VectorizeText | text/app/src/main/java/text/NaiveBayesClassifierCSV.java:149-162 | a fresh array, one entry per vocabulary term, equal to the text's TF-IDF vector for the given document count |
| Vectorizer.FillRow | text/app/src/main/java/text/NaiveBayesClassifierCSV.java:136-144 | row i becomes the document's TF-IDF vector and every other row is unchanged |
| Vectorizer.VectorizeBatch | text/app/src/main/java/text/NaiveBayesClassifierCSV.java:131-147 | an N by |vocab| matrix whose row i is sample i's TF-IDF vector, N being the number of samples |
| Labels.LabelOrderProperties | text/app/src/main/java/text/NaiveBayesClassifierCSV.java:185-194 | the first-seen order lists every sample label exactly once and nothing else |
| Labels.LabelOrderFirstSeen | text/app/src/main/java/text/NaiveBayesClassifierCSV.java:188-191 | the label ranked k first occurs at a position before which only lower-ranked labels occur |
| Labels.DistinctCardinality | text/app/src/main/java/text/NaiveBayesClassifierCSV.java:190 | a duplicate-free list has as many distinct elements as entries, so the map size is the number of labels |
| Labels.EncodingDense | text/app/src/main/java/text/NaiveBayesClassifierCSV.java:185-194 | a first-seen encoding has K entries, is injective, uses exactly the indices 0..K-1, and covers every sample's label |
| Labels.ClassHasSample | text/app/src/main/java/text/NaiveBayesClassifierCSV.java:185-194 | every index below K is the code of some sample's label |
| Labels.EncodeLabels | text/app/src/main/java/text/NaiveBayesClassifierCSV.java:185-194 | each label maps to its rank in order of first appearance, and the keys are exactly the sample labels |
| Labels.EncodeLabelsArray | text/app/src/main/java/text/NaiveBayesClassifierCSV.java:196-202 | a fresh array, one code per sample, y[i] being the index of sample i's label |
| Labels.CodesInRange | text/app/src/main/java/text/NaiveBayesClassifierCSV.java:196-202 | every code lies in [0, K), and the label it ranks is the sample's own label |
| Labels.InverseLabelMap | text/app/src/main/java/text/NaiveBayesClassifierCSV.java:204-209 | returns a label holding the index, or null exactly when none does; on an injective map it is the one such label |
| Decision.FirstArgmaxUnique | text/app/src/main/java/text/NaiveBayesModel.java:22-25 | the strict `>` update leaves no choice: at most one index is the first maximum |
| Decision.NoEarlierMax | text/app/src/main/java/text/NaiveBayesModel.java:22-25 | no index before the first maximum holds a value as large |
| Decision.FirstArgmaxExists | text/app/src/main/java/text/NaiveBayesModel.java:17-27 | every non-empty vector of scores has a first maximum, so predict always finds a class when there is one |
| Decision.FirstArgminUnique | text/app/src/main/java/text/NaiveBayesModel.java:91-94 | at most one index is the first minimum |
| Decision.NoEarlierMin | text/app/src/main/java/text/NaiveBayesModel.java:91-94 | no index before the first minimum holds a value as small |
| Decision.FirstArgminExists | text/app/src/main/java/text/NaiveBayesModel.java:90-95 | every non-empty vector of statistics has a first minimum, so predictFisher always finds a class when there is one |
| Decision.Negate | text/app/src/main/java/text/NaiveBayesModel.java:86-97 | the negated vector has the same length |
| Decision.ArgminIsArgmaxOfNegation | text/app/src/main/java/text/NaiveBayesModel.java:86-97 | predictFisher's choice is predict's rule applied to the negated statistics, in both directions |
| Decision.Max | text/app/src/main/java/text/NaiveBayesModel.java:32-39 | the running maximum of the scores: the first, then each later one that is strictly larger |
| Decision.MaxIsMaximum | text/app/src/main/java/text/NaiveBayesModel.java:39 | the running maximum bounds every score and is one of them |
| Decision.ArgmaxHoldsMax | text/app/src/main/java/text/NaiveBayesModel.java:22-25 | predict's class holds the maximum that predictProba subtracts |
| Decision.SumExp | text/app/src/main/java/text/NaiveBayesModel.java:42-46 | the sum of exp(score − max), added left to right from 0.0 |
| Decision.SumExpBounds | text/app/src/main/java/text/NaiveBayesModel.java:42-46 | the sum of the shifted exponentials is non-negative, bounds each term, and is at least 1 once it includes the maximal score |
| Decision.Softmax | text/app/src/main/java/text/NaiveBayesModel.java:41-49 | one probability per class |
| Decision.SoftmaxFromTerms | text/app/src/main/java/text/NaiveBayesModel.java:47-49 | dividing each shifted exponential by their sum yields the softmax |
| Decision.SoftmaxInUnitInterval | text/app/src/main/java/text/NaiveBayesModel.java:41-49 | with exp(0) = 1 and exp non-negative, every probability lies in [0, 1] |
| Decision.UnitQuotient | text/app/src/main/java/text/NaiveBayesModel.java:48 | a part of a positive total, divided by that total, lies in [0, 1] |
| Decision.SoftmaxFavoursArgmax | text/app/src/main/java/text/NaiveBayesModel.java:30-51 | every probability is in [0, 1], the sum is at least 1, and predict's class gets 1/sum, the largest entry |
| Decision.EntryBounds | text/app/src/main/java/text/NaiveBayesModel.java:48 | an exponential between 0 and 1, divided by a sum of at least 1, stays in [0, 1] |
| NaiveBayes.NaiveBayesModel.constructor | text/app/src/main/java/text/NaiveBayesModel.java:9-12 | the model keeps the given arrays |
| NaiveBayes.NaiveBayesModel.ScoreUpTo | text/app/src/main/java/text/NaiveBayesModel.java:18-21 | the score formula shared by predict and predictProba: the log-prior plus x[j] · logLikelihood[c][j], added left to right |
| NaiveBayes.NaiveBayesModel.Score | text/app/src/main/java/text/NaiveBayesModel.java:18-21 | the score of one class over the whole feature vector |
| NaiveBayes.NaiveBayesModel.Scores | text/app/src/main/java/text/NaiveBayesModel.java:17-21 | one score per class |
| NaiveBayes.NaiveBayesModel.ScoreOfZeros | text/app/src/main/java/text/NaiveBayesModel.java:18-21 | zero features add nothing, so an all-zero vector scores the log-prior |
| NaiveBayes.NaiveBayesModel.PredictOnZerosFollowsPrior | text/app/src/main/java/text/NaiveBayesModel.java:14-28 | on a vector without vocabulary terms the scores are the log-priors, and the prediction is the first class of largest prior |
| NaiveBayes.NaiveBayesModel.Predict | text/app/src/main/java/text/NaiveBayesModel.java:14-28 | -1 when there are no classes, otherwise the first class of maximal score |
| NaiveBayes.NaiveBayesModel.PredictProba | text/app/src/main/java/text/NaiveBayesModel.java:30-51 | a fresh array, one entry per class, equal to the softmax of the scores taken relative to their maximum |
| NaiveBayes.NaiveBayesModel.ScoreAll | text/app/src/main/java/text/NaiveBayesModel.java:31-40 | the first pass: a fresh array holding every class's score, and their running maximum |
| NaiveBayes.NaiveBayesModel.SoftmaxInPlace | text/app/src/main/java/text/NaiveBayesModel.java:41-49 | the second and third passes turn the scores in the array into their softmax |
| NaiveBayes.NaiveBayesModel.ExpShift | text/app/src/main/java/text/NaiveBayesModel.java:42-46 | every entry becomes exp(entry − max), and the returned sum adds these left to right |
| NaiveBayes.NaiveBayesModel.DivideAll | text/app/src/main/java/text/NaiveBayesModel.java:47-49 | every entry is divided by the sum |
| NaiveBayes.NaiveBayesModel.FisherUpTo | text/app/src/main/java/text/NaiveBayesModel.java:64-73 | the Fisher statistic of one class: a zero feature is skipped, and so is one whose exp(ll) is not positive; every other adds −2 · ln(exp(ll)) |
| NaiveBayes.NaiveBayesModel.FisherScores | text/app/src/main/java/text/NaiveBayesModel.java:61-77 | one statistic per class |
| NaiveBayes.NaiveBayesModel.FisherSameZeroPattern | text/app/src/main/java/text/NaiveBayesModel.java:66-72 | only which features are non-zero matters, not their values |
| NaiveBayes.NaiveBayesModel.FisherOfZeros | text/app/src/main/java/text/NaiveBayesModel.java:64-66 | a vector without present features has statistic 0 for every class |
| NaiveBayes.NaiveBayesModel.FisherScore | text/app/src/main/java/text/NaiveBayesModel.java:61-77 | a fresh array of the classes' Fisher statistics: zero features skipped, −2·ln p added for every present feature whose p = exp(ll) is positive |
| NaiveBayes.NaiveBayesModel.PredictFisher | text/app/src/main/java/text/NaiveBayesModel.java:86-97 | -1 when there are no classes, otherwise the first class of minimal Fisher statistic |
| NaiveBayes.FisherIgnoresPrior | text/app/src/main/java/text/NaiveBayesModel.java:61-77 | two models with equal log-likelihoods have equal Fisher statistics, whatever their priors |
| Trainer.Rows | text/app/src/main/java/text/NaiveBayesClassifierCSV.java:215-216 | the training matrix seen as N rows of D values |
| Trainer.ClassCount | text/app/src/main/java/text/NaiveBayesClassifierCSV.java:221-223 | the number of samples whose code is the class |
| Trainer.FeatureSum | text/app/src/main/java/text/NaiveBayesClassifierCSV.java:224-226 | the sum of one feature over the rows of the class |
| Trainer.ClassTotalAppend | text/app/src/main/java/text/NaiveBayesClassifierCSV.java:221-223 | counting one more sample adds one to the total of its class |
| Trainer.ClassCountsSumToN | text/app/src/main/java/text/NaiveBayesClassifierCSV.java:219-227 | with every code in range, the class counts add up to N |
| Trainer.ClassTotalZero | text/app/src/main/java/text/NaiveBayesClassifierCSV.java:219 | the counts start at zero |
| Trainer.FeatureTotalAppend | text/app/src/main/java/text/NaiveBayesClassifierCSV.java:224-226 | one more row adds its value to the column total of its class |
| Trainer.FeatureTotalZero | text/app/src/main/java/text/NaiveBayesClassifierCSV.java:220 | the feature sums start at zero |
| Trainer.FeatureSumsPartitionColumn | text/app/src/main/java/text/NaiveBayesClassifierCSV.java:219-227 | the per-class feature sums of a column add up to the column's sum: every row lands in exactly one class |
| Trainer.ClassCountBounds | text/app/src/main/java/text/NaiveBayesClassifierCSV.java:219-227 | a class count is at most N, and at least 1 for a class that occurs |
| Trainer.CountClasses | text/app/src/main/java/text/NaiveBayesClassifierCSV.java:219-227 | fresh arrays holding, per class, the number of its samples and, per feature, the sum of its samples' values |
| Trainer.AddRow | text/app/src/main/java/text/NaiveBayesClassifierCSV.java:224-226 | row i of X is added to the feature sums of class cls, every other entry unchanged |
| Trainer.SmoothedRowSum | text/app/src/main/java/text/NaiveBayesClassifierCSV.java:233-235 | the sum of a class's feature sums, each plus alpha = 1 |
| Trainer.FillLikelihoodRow | text/app/src/main/java/text/NaiveBayesClassifierCSV.java:236-238 | row c becomes log((featureSum + 1) / sum), every other row unchanged |
| Trainer.RowTotal | text/app/src/main/java/text/NaiveBayesClassifierCSV.java:233-235 | the sum of a class's feature sums, each plus alpha = 1, added left to right |
| Trainer.SmoothedTotal | text/app/src/main/java/text/NaiveBayesClassifierCSV.java:233-235 | the same total stated on the samples' rows and codes |
| Trainer.RowTotalIsSmoothedTotal | text/app/src/main/java/text/NaiveBayesClassifierCSV.java:233-235 | the smoothed row sum of the counted arrays is the smoothed total of the samples of the class |
| Trainer.Estimate | text/app/src/main/java/text/NaiveBayesClassifierCSV.java:229-239 | fresh arrays with log-prior log(count/N) and log-likelihood log((featureSum + 1) / smoothed row sum) |
| Trainer.TrainNaiveBayes | text/app/src/main/java/text/NaiveBayesClassifierCSV.java:214-241 | a fresh model whose priors and Laplace-smoothed likelihoods are those of the samples' rows and codes |
| Classifier.Codes | text/app/src/main/java/text/NaiveBayesClassifierCSV.java:196-202 | one class code per sample |
| Classifier.TrainingRows | text/app/src/main/java/text/NaiveBayesClassifierCSV.java:131-147 | one TF-IDF row per sample, one entry per vocabulary term |
| Classifier.BatchRows | text/app/src/main/java/text/NaiveBayesClassifierCSV.java:48 | the rows of the batch matrix are the samples' TF-IDF vectors |
| Classifier.Train | text/app/src/main/java/text/NaiveBayesClassifierCSV.java:44-53 | fails with IllegalArgument("Need at least 2 samples") exactly when there are fewer than two samples; otherwise the vocabulary, document frequencies, label map, count and model are those of the samples, and the model and both of its arrays are newly allocated |
| Classifier.TrainedIsWellformed | text/app/src/main/java/text/NaiveBayesClassifierCSV.java:44-53 | a trained classifier has at least one class, matching shapes and an injective, dense label map; every class has between 1 and N samples and the counts add up to N; every vocabulary term has a document frequency of at least 1, so no IDF divides by zero |
| Classifier.Features | text/app/src/main/java/text/NaiveBayesClassifierCSV.java:57 | the vector predict scores has one entry per vocabulary term |
| Classifier.Predict | text/app/src/main/java/text/NaiveBayesClassifierCSV.java:56-60 | null without classes, otherwise the label whose index is the first class of maximal score |
| Classifier.PredictLabelProbability | text/app/src/main/java/text/NaiveBayesClassifierCSV.java:164-170 | a value in [0, 1]: 0.0 for an unknown label, otherwise that label's entry of the softmax of the scores |
| Classifier.PredictedLabelMostProbable | text/app/src/main/java/text/NaiveBayesClassifierCSV.java:56-60 | no known label has a larger probability than the label predict returns |

## Left out

- Floating point is modelled with mathematical reals. `Math.log` of a quotient and `Math.exp` are uninterpreted parameters (`Numerics`), so rounding, infinities and NaN are not modelled. With reals, a sum of doubles is exact and the softmax entries are not proved to add up to 1.
- NaiveBayes.NaiveBayesModel.Predict: Java starts from negative infinity. If every score were negative infinity or NaN, Java would return -1 even with classes present. Reals have no such scores, so the model always returns a class when there is one. PredictFisher is the same with positive infinity.
- NaiveBayes.NaiveBayesModel.PredictProba: stated only for Math.exp with exp(0) = 1 and non-negative results (`ExpBasics`), because the division by the sum is then defined. Classifier.PredictLabelProbability inherits this requirement.
- Decision.SoftmaxFavoursArgmax: also assumes that Math.exp is monotonic (`ExpFacts`), as its documentation requires.
- The Porter stemmer is not part of this model. It is the parameter `stem`, about which nothing is assumed.
- Tokenizer.Normalize: `toLowerCase` is modelled for ASCII only. Characters whose Unicode lower case is an ASCII letter or digit (for example the Kelvin sign) are not modelled; the model blanks them. Lower-case mappings that change the string's length are not modelled either.
- Tokenizer.Normalize: `toLowerCase()` uses the default locale. Under a Turkish locale, 'I' becomes the dotless 'ı', which the replacement then blanks; the model gives 'i'. The model follows a locale with the standard ASCII mappings.
- Tokenizer.SplitSpaces: its own contract states only that there is at least one fragment. The round trip (SplitSpacesJoin) and the absence of spaces in fragments (SplitSpacesFragments) are separate lemmas, so that proofs which unfold the tokens do not carry them.
- The split on `\s+` is modelled as a split at every single space. After the replacement, spaces are the only whitespace left. The split at every space yields extra empty fragments, and tokenize skips those, so the tokens are the same.
- `String.compareTo` compares UTF-16 units, while Dafny compares characters. The two orders differ only for characters outside the Basic Multilingual Plane. Such characters could appear in a token only through the stemmer.
- The iteration order of HashMap and HashSet is an arbitrary choice (`:|`). `Collections.sort` is modelled by insertion into a sorted list. A set has exactly one strictly sorted listing, so the result is the same.
- Java `int` counters (document frequencies, label indices, term counts) are unbounded integers. Overflow past 2^31 − 1 is not modelled.
- Java's `double[][]` may be ragged; the model uses rectangular `array2`.
- Exceptions Java would throw are preconditions:
  - TrainNaiveBayes needs at least one row (for `X[0]`), a code for every row, and every code in [0, nClasses).
  - The model methods need x to be no longer than a likelihood row, and one likelihood row per class (`Valid`).
  - EncodeLabelsArray needs every label to be in the map.
  - `train` guarantees all of these for the calls it makes.
- The passes of predictProba and trainNaiveBayes are split into helper methods:
  - PredictProba's first pass is ScoreAll. Its second and third passes are SoftmaxInPlace, which calls ExpShift and DivideAll.
  - trainNaiveBayes is CountClasses, then Estimate, which uses SmoothedRowSum and FillLikelihoodRow.
  - The computation and its order are unchanged.
- loadSamplesFromCsv is not modelled: it reads a file through a CSV library.
- FilterConceptAndPredict.java, TrainTestNaiveBayesCsv.java and NaiveBayesCsvTest.java are not part of this model. They are command-line drivers and a test harness around the core.
