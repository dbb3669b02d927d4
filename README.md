# Naive Bayes classification core of cherry

This project models the classification step of cherry, a multinomial
Naive Bayes text classifier, and proves properties of that model. Given a
trained model and a tokenized document, the classifier does four things:

1. It builds the document's word-count vector over the vocabulary. A token
   is counted at the first position of the vocabulary that holds it, and
   unknown tokens are ignored (`vectorizer.dfy`; the loop is
   `Result.DataToVector` in `classify.dfy`).
2. It scores every class in order (`scorer.dfy`; the loop is
   `ScoreClasses` in `classify.dfy`). For each class it forms the
   element-wise product of that class's log-probabilities and the counts
   (the evidence vector). It keeps the non-zero entries of the product
   together with their vocabulary terms. The class score is the product's
   sum plus the class log-prior.
3. It picks the winner and attributes its margin (`attribution.dfy`; the
   loops are `SelectWinner` and `SubtractRows` in `classify.dfy`). The
   winner is the first class whose score equals the maximum. For each kept
   term, the margin is the winner's evidence minus each other class's
   evidence, summed over the other classes. The terms are paired with the
   margins.
4. It ranks the classes (`ranker.dfy`). Each label is paired with its
   score, and the pairs are sorted by score, highest first, with a stable
   sort.

`classify.dfy` holds the `Result` class. Its constructor runs the pipeline
on a `TrainedModel` and a token sequence. `DataToVector` fills the
`wordVec` array in place. `BayesClassify` returns the ranking and the
attribution list, and the constructor stores them in `percentage` and
`wordList`.

Scores and log-probabilities are `real` numbers, not floating point. The
model relies on the classifier's well-formedness assumptions, which become
preconditions:
- there is at least one class;
- there is one label per class;
- every class has one log-probability per vocabulary term;
- no log-probability is zero (training-time smoothing guarantees this).

Under the last assumption, the non-zero positions of every class's evidence
vector are exactly the terms the document holds (`Scorer.Present`). That is
why the per-class sub-vectors line up column by column.

The attribution list is in vocabulary order, because the non-zero positions
are taken in ascending order. The relative likelihoods are computed but are
not part of the result. The words paired with the margins come from the
last class scored. The model keeps that, and proves that they are the
present terms whichever class is last.

## Model

| member | source | states |
|---|---|---|
| `Vectorizer.IndexOf` | cherry/classify.py:33 | the position found holds the token and no earlier position does (first occurrence) |
| `Vectorizer.WordVectorStep` | cherry/classify.py:31-33 | reading one more token adds one at the token's first vocabulary position if the vocabulary holds it, and changes nothing otherwise |
| `Vectorizer.WordVector` | cherry/classify.py:30 | the zero-filled list has one counter per vocabulary term |
| `Vectorizer.Occurrences` | cherry/classify.py:31-33 | a counter never exceeds the number of tokens, and is positive only for a term the document contains |
| `Vectorizer.OccurrencesByTerm` | cherry/classify.py:32-33 | for any vocabulary, counter `j` is the number of tokens equal to `vocab[j]` when `j` is that term's first position, and zero for a later duplicate |
| `Vectorizer.OccurrencesCountTerm` | cherry/classify.py:30-33 | with unique vocabulary terms, counter `j` is the number of tokens equal to `vocab[j]` |
| `Vectorizer.WordVectorCounts` | cherry/classify.py:30-33 | the word vector has one entry per vocabulary term, and entry `j` is the multiplicity of `vocab[j]` among the tokens |
| `Vectorizer.OccurrencesKnown` | cherry/classify.py:32 | dropping unknown tokens does not change any counter |
| `Vectorizer.UnknownTokensIgnored` | cherry/classify.py:32 | the word vector of the known tokens alone equals the word vector of the whole document |
| `Vectorizer.UnknownTokenInserted` | cherry/classify.py:32 | inserting or removing a token the vocabulary does not hold, anywhere, leaves the word vector unchanged |
| `Vectorizer.NoKnownTokens` | cherry/classify.py:30-33 | a document with no vocabulary term has the all-zero word vector |
| `Vectorizer.WordVectorAppend` | cherry/classify.py:30-33 | the word vector of two documents read in turn is the element-wise sum of their word vectors |
| `Vectorizer.TokenOrderIrrelevant` | cherry/classify.py:31-33 | two token sequences that are permutations of each other have the same word vector, for any vocabulary |
| `Scorer.Product` | cherry/classify.py:43 | the evidence vector has one entry per term, zero exactly where the log-probability or the count is zero |
| `Scorer.SumOfZeros` | cherry/classify.py:50 | a vector of zeros sums to zero |
| `Scorer.Score` | cherry/classify.py:50 | with no term counted, a class's score is its log-prior |
| `Scorer.Scores` | cherry/classify.py:41-50 | one score per class |
| `Scorer.NonZeroIndices` | cherry/classify.py:45 | exactly the positions of the non-zero entries, in strictly ascending order |
| `Scorer.Present` | cherry/classify.py:45 | exactly the positions with a positive count, in strictly ascending order |
| `Scorer.Gather` | cherry/classify.py:46-48 | one entry per selected index |
| `Scorer.NonZeroIsPresent` | cherry/classify.py:43-45 | with no zero log-probability, the non-zero positions of the evidence vector are exactly the positions with a positive count |
| `Scorer.NonZeroPart` | cherry/classify.py:45-48 | the kept sub-vector has one entry per non-zero position, and none of its entries is zero |
| `Scorer.Evidence` | cherry/classify.py:41-49 | one kept sub-vector per class, with no zero entry in any of them |
| `Scorer.SharedSupport` | cherry/classify.py:43-48 | any two classes keep the same terms |
| `Scorer.EvidenceWidth` | cherry/classify.py:48-49 | there is one sub-vector per class, and each has one entry per term the document holds |
| `Scorer.EvidenceColumn` | cherry/classify.py:43-49 | entry `j` of every class's sub-vector is that class's log-probability of the `j`-th present term times its count |
| `Scorer.EmptyDocument` | cherry/classify.py:45-50 | with all counts zero, every class scores exactly its log-prior and no term is kept |
| `Scorer.EvidenceAdds` | cherry/classify.py:43-50 | the evidence sum over the sum of two count vectors is the sum of the two evidence sums |
| `Scorer.ScoreAdds` | cherry/classify.py:50 | the score of a sum of two count vectors is the sum of the two scores with the log-prior counted once |
| `Attribution.Max` | cherry/classify.py:52 | the maximum is one of the scores and no score exceeds it |
| `Attribution.Winner` | cherry/classify.py:52-55 | the winner is a class index whose score is at least every score and strictly above every earlier class's score |
| `Attribution.FirstMaxIsWinner` | cherry/classify.py:53-55 | the first index whose score equals the maximum is the winner |
| `Attribution.Remove` | cherry/classify.py:56 | the rows before `i` are kept in place and the rows after `i` shift down by one |
| `Attribution.AccumulatedIsMargin` | cherry/classify.py:56-59 | accumulating winner-minus-row over the rows left after the winner's removal gives the winner's margin over every other class |
| `Attribution.SingleClassMargin` | cherry/classify.py:56-59 | with one class every margin is zero |
| `Attribution.Attribute` | cherry/classify.py:56-61 | one attribution entry per term the document holds |
| `Attribution.AttributeAt` | cherry/classify.py:56-61 | attribution entry `j` pairs the `j`-th present term with its count times the summed log-probability gap between the winner and each other class |
| `Attribution.AttributeMeaning` | cherry/classify.py:56-61 | one attribution entry per present term, in vocabulary order, each margin being the count times the summed log-odds gap of the winner over every other class |
| `Attribution.SingleClassAttribution` | cherry/classify.py:56-61 | with one class every attribution margin is zero |
| `Ranker.Insert` | cherry/classify.py:65 | inserting a pair lengthens the sequence by one |
| `Ranker.InsertPermutes` | cherry/classify.py:65 | inserting a pair yields exactly the sequence's pairs plus the new one |
| `Ranker.SortDescending` | cherry/classify.py:65 | the sorted sequence is a permutation of its input |
| `Ranker.SortIsDescending` | cherry/classify.py:65 | the sorted sequence is in descending order of score |
| `Ranker.SortIsStable` | cherry/classify.py:65 | for every score, the pairs with that score keep their relative order |
| `Ranker.UpdateCategory` | cherry/classify.py:63-68 | the ranking has one pair per class, is a permutation of the (label, score) pairs and is in descending order of score |
| `Ranker.UpdateCategorySpec` | cherry/classify.py:63-68 | the ranking has one pair per class, is a permutation of the (label, score) pairs, is descending, and keeps equal scores in class order |
| `Ranker.RelativeExponents` | cherry/classify.py:66 | the head's exponent is zero, and on a descending ranking no exponent is positive |
| `Ranker.RelativeExponentsSpec` | cherry/classify.py:66 | the ranking head's exponent is 0, so its relative likelihood is 2^0 = 1, and no exponent is positive |
| `Classify.Result.constructor` | cherry/classify.py:11-16 | builds the word vector, then stores the ranking of the class scores and the attribution list |
| `Classify.Result.DataToVector` | cherry/classify.py:26-33 | the zero-filled array incremented in place ends up equal to the word vector of the tokens, and nothing else changes |
| `Classify.Result.BayesClassify` | cherry/classify.py:35-61 | the result is the ranking of the class scores and the attribution list of the first top-scoring class |
| `Classify.ScoreClasses` | cherry/classify.py:39-50 | the loop yields every class's score and non-zero sub-vector in class order, and the last class's kept terms are the present terms |
| `Classify.ScoreClass` | cherry/classify.py:43-50 | the terms kept for one class are exactly the present terms, in vocabulary order, and there is one kept evidence entry per kept term |
| `Classify.SelectWinner` | cherry/classify.py:52-55 | the scan that stops at the first score equal to the maximum returns the winner |
| `Classify.SubtractRows` | cherry/classify.py:57-59 | adding winner-minus-row for each remaining row, in place from zeros, gives the accumulated margin at every column |
| `Classify.ZipIsAttribute` | cherry/classify.py:60-61 | zipping the present terms with the accumulated margins gives the attribution list |
| `Classify.Zip` | cherry/classify.py:61 | the zip stops at the shorter input |
| `Classify.RankingHeadIsWinner` | cherry/classify.py:52-65 | the ranking's first pair is the winner's label with the winner's score, even when scores tie |
| `Classify.AttributedTerms` | cherry/classify.py:30-61 | with unique vocabulary terms, a word is attributed exactly when the vocabulary holds it and the document contains it |
| `Classify.UnknownDocument` | cherry/classify.py:30-61 | a document with no vocabulary term scores every class at its log-prior and has an empty attribution list |
| `Classify.ConcatenatedDocument` | cherry/classify.py:30-50 | each class's score for two documents read in turn is the sum of the two scores with its log-prior counted once |

## Left out

- Loading the trained model (cherry/classify.py:70-83) is file I/O. The model is a `TrainedModel` parameter of the constructor, so a missing cache is not modelled.
- Tokenization (cherry/classify.py:12) is an external component. The document is a `seq<string>` of tokens.
- The language setting (cherry/classify.py:13) only selects the cache directory, so it is not modelled.
- The relative likelihoods `2**(v - top)` and the normalized percentages (cherry/classify.py:66-67) use floating-point exponentiation and are never returned. Only the exponents are modelled (`Ranker.RelativeExponents`).
- Floating-point rounding is not modelled: every score is a `real`.
- Stacking the sub-vectors into a 2-D array (cherry/classify.py:51) is not modelled. Its requirement that all rows have one length is proved as `Scorer.EvidenceWidth`.
- The property getters (cherry/classify.py:18-24, 85-87) are not modelled.
- Classify.Result.BayesClassify: requires at least one class instead of modelling the error `max` raises on an empty score list.
- Classify.Result.BayesClassify: requires one label per class. The source pairs labels by index and so fails or drops classes otherwise.
- Classify.Result.BayesClassify: requires that no log-probability is zero. With a zero entry the source's sub-vectors can differ in length and the 2-D stacking fails.
- Classify.Result.BayesClassify: requires one log-probability per vocabulary term in every class, instead of modelling numpy broadcasting errors.
