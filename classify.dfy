/**
 A classification request. Given a trained model and a token sequence it
 builds the word-count vector in place, scores every class, picks the
 winner, ranks the classes and attributes the winner's margin to the
 words of the document.
 */
module Classify {
  import opened Vectorizer
  import opened Scorer
  import opened Attribution
  import opened Ranker

  /** The trained artifacts: vocabulary, one profile per class, the class labels. */
  datatype TrainedModel = TrainedModel(vocab: seq<string>, profiles: seq<ClassProfile>, categories: seq<string>)

  /**
   What the classifier relies on: at least one class, one label per
   class, one log-probability per vocabulary term in every class, and no
   log-probability equal to zero.
   */
  ghost predicate WellFormed(m: TrainedModel) {
    && |m.profiles| > 0
    && |m.categories| == |m.profiles|
    && Aligned(m.profiles, |m.vocab|)
    && NoZeroEntries(m.profiles)
  }

  /** The words of an attribution list, in order. */
  function Words(a: seq<WordMargin>): (r: seq<string>)
    ensures |r| == |a|
  {
    seq(|a|, j requires 0 <= j < |a| => a[j].word)
  }

  class Result {
    const vocabList: seq<string>
    const psVector: seq<ClassProfile>
    const classify: seq<string>
    const tokens: seq<string>
    /** The word-count vector of `tokens`. */
    var wordVec: array<nat>
    /** The ranking, highest score first. */
    var percentage: seq<Ranked>
    /** The winner's per-word attribution. */
    var wordList: seq<WordMargin>

    ghost function Model(): TrainedModel {
      TrainedModel(vocabList, psVector, classify)
    }

    constructor (model: TrainedModel, tokens: seq<string>)
      requires WellFormed(model)
      ensures Model() == model && this.tokens == tokens
      ensures wordVec[..] == WordVector(model.vocab, tokens)
      ensures percentage == UpdateCategory(model.categories, Scores(model.profiles, wordVec[..]))
      ensures wordList == Attribute(model.vocab, model.profiles, wordVec[..])
    {
      vocabList, psVector, classify := model.vocab, model.profiles, model.categories;
      this.tokens := tokens;
      wordVec := new nat[0];
      new;
      DataToVector();
      percentage, wordList := BayesClassify();
    }

    /** Builds the word-count vector: zero-filled, then one increment per known token. */
    method DataToVector()
      modifies this
      ensures fresh(wordVec)
      ensures wordVec[..] == WordVector(vocabList, tokens)
      ensures percentage == old(percentage) && wordList == old(wordList)
    {
      wordVec := new nat[|vocabList|](_ => 0);
      assert tokens[..0] == [];
      for i := 0 to |tokens|
        invariant fresh(wordVec)
        invariant percentage == old(percentage) && wordList == old(wordList)
        invariant wordVec[..] == WordVector(vocabList, tokens[..i])
      {
        WordVectorStep(vocabList, tokens, i);
        if tokens[i] in vocabList {
          var k := IndexOf(vocabList, tokens[i]);
          wordVec[k] := wordVec[k] + 1;
        }
      }
      assert tokens[..|tokens|] == tokens;
    }

    /**
     Scores every class in order, picks the first class with the top
     score, accumulates its margin over every other class at each present
     term, and returns the ranking with the attribution list.
     */
    method BayesClassify() returns (ranked: seq<Ranked>, attribution: seq<WordMargin>)
      requires WellFormed(Model()) && wordVec.Length == |vocabList|
      ensures ranked == UpdateCategory(classify, Scores(psVector, wordVec[..]))
      ensures attribution == Attribute(vocabList, psVector, wordVec[..])
    {
      var counts := wordVec[..];
      var possibilityVector, logList, nonZeroWord := ScoreClasses(vocabList, psVector, counts);
      EvidenceWidth(psVector, counts);
      var i := SelectWinner(logList);
      var maxArray := possibilityVector[i];
      var leftArray := Remove(possibilityVector, i);
      var subArray := SubtractRows(maxArray, leftArray);
      ranked := UpdateCategory(classify, logList);
      attribution := Zip(nonZeroWord, subArray);
      ZipIsAttribute(vocabList, psVector, counts, possibilityVector, i, nonZeroWord, subArray);
    }
  }

  /**
   Scores every class in order. Returns each class's non-zero evidence
   sub-vector, each class's log-posterior, and the terms kept by the last
   class scored.
   */
  method ScoreClasses(vocab: seq<string>, profiles: seq<ClassProfile>, counts: seq<nat>)
    returns (possibilityVector: seq<seq<real>>, logList: seq<real>, nonZeroWord: seq<string>)
    requires |counts| == |vocab| && |profiles| > 0
    requires Aligned(profiles, |counts|) && NoZeroEntries(profiles)
    ensures logList == Scores(profiles, counts)
    ensures possibilityVector == Evidence(profiles, counts)
    ensures nonZeroWord == Gather(vocab, Present(counts))
  {
    possibilityVector, logList, nonZeroWord := [], [], [];
    ghost var scores, evidence := Scores(profiles, counts), Evidence(profiles, counts);
    for c := 0 to |profiles|
      invariant logList == scores[..c]
      invariant possibilityVector == evidence[..c]
      invariant c > 0 ==> nonZeroWord == Gather(vocab, Present(counts))
    {
      var words, nonZeroVector, score := ScoreClass(vocab, profiles[c], counts);
      nonZeroWord := words;
      possibilityVector := possibilityVector + [nonZeroVector];
      logList := logList + [score];
      assert scores[..c + 1] == scores[..c] + [scores[c]];
      assert evidence[..c + 1] == evidence[..c] + [evidence[c]];
    }
    assert scores[..|profiles|] == scores;
    assert evidence[..|profiles|] == evidence;
  }

  /**
   Scores one class: the evidence vector, its non-zero positions, the
   terms and evidence kept there, and the class score.
   */
  method ScoreClass(vocab: seq<string>, p: ClassProfile, counts: seq<nat>)
    returns (nonZeroWord: seq<string>, nonZeroVector: seq<real>, score: real)
    requires |counts| == |vocab| == |p.logProb|
    requires forall i :: 0 <= i < |p.logProb| ==> p.logProb[i] != 0.0
    ensures nonZeroWord == Gather(vocab, Present(counts))
    ensures nonZeroVector == NonZeroPart(Product(p.logProb, counts))
    ensures |nonZeroVector| == |nonZeroWord|
    ensures score == Score(p, counts)
  {
    var finalVector := Product(p.logProb, counts);
    var wordIndex := NonZeroIndices(finalVector);
    NonZeroIsPresent(p.logProb, counts);
    nonZeroWord := Gather(vocab, wordIndex);
    nonZeroVector := Gather(finalVector, wordIndex);
    score := Sum(finalVector) + p.prior;
  }

  /** The first index whose score equals the maximum score. */
  method SelectWinner(logList: seq<real>) returns (i: nat)
    requires |logList| > 0
    ensures i == Winner(logList)
  {
    var maxVal := Max(logList);
    i := 0;
    while i < |logList| && logList[i] != maxVal
      invariant 0 <= i <= |logList|
      invariant forall k :: 0 <= k < i ==> logList[k] != maxVal
    {
      i := i + 1;
    }
    if i == |logList| {
      assert false;
    }
    FirstMaxIsWinner(logList, i);
  }

  /**
   Starting from zeros, adds the winner's row minus each remaining row,
   element by element and in place.
   */
  method SubtractRows(maxArray: seq<real>, leftArray: seq<seq<real>>) returns (margins: seq<real>)
    requires HasColumnsBelow(leftArray, |maxArray|)
    ensures |margins| == |maxArray|
    ensures forall j :: 0 <= j < |maxArray| ==> margins[j] == Accumulated(maxArray, leftArray, j, |leftArray|)
  {
    var subArray := new real[|maxArray|](_ => 0.0);
    for k := 0 to |leftArray|
      invariant forall j :: 0 <= j < subArray.Length ==> subArray[j] == Accumulated(maxArray, leftArray, j, k)
    {
      forall j | 0 <= j < subArray.Length {
        subArray[j] := subArray[j] + (maxArray[j] - leftArray[k][j]);
      }
    }
    margins := subArray[..];
  }

  /**
   Zipping the present terms with the margins accumulated over the
   remaining classes, after the winner's row is removed, gives the
   attribution list.
   */
  lemma ZipIsAttribute(vocab: seq<string>, profiles: seq<ClassProfile>, counts: seq<nat>,
                       rows: seq<seq<real>>, w: nat, words: seq<string>, margins: seq<real>)
    requires |counts| == |vocab| && |profiles| > 0
    requires Aligned(profiles, |counts|) && NoZeroEntries(profiles)
    requires rows == Evidence(profiles, counts) && w == Winner(Scores(profiles, counts))
    requires words == Gather(vocab, Present(counts))
    requires |margins| == |rows[w]|
    requires HasColumnsBelow(rows, |margins|)
    requires forall j :: 0 <= j < |margins| ==> margins[j] == Accumulated(rows[w], Remove(rows, w), j, |rows| - 1)
    ensures Zip(words, margins) == Attribute(vocab, profiles, counts)
  {
    EvidenceWidth(profiles, counts);
    forall j | 0 <= j < |margins|
      ensures margins[j] == Margin(rows, w, j)
    {
      AccumulatedIsMargin(rows, w, j);
    }
  }

  /** Pairs words with margins, stopping at the shorter of the two. */
  function Zip(words: seq<string>, margins: seq<real>): (r: seq<WordMargin>)
    ensures |r| == if |words| < |margins| then |words| else |margins|
  {
    var n := if |words| < |margins| then |words| else |margins|;
    seq(n, j requires 0 <= j < n => WordMargin(words[j], margins[j]))
  }

  /**
   The head of the ranking is the winning class with its score: sorting
   puts the top score first, and stability keeps the earliest class with
   that score ahead of the others.
   */
  lemma RankingHeadIsWinner(labels: seq<string>, scores: seq<real>)
    requires |labels| == |scores| > 0
    ensures |UpdateCategory(labels, scores)| == |scores|
    ensures UpdateCategory(labels, scores)[0] == Ranked(labels[Winner(scores)], scores[Winner(scores)])
  {
    var r, pairs, w := UpdateCategory(labels, scores), Pairs(labels, scores), Winner(scores);
    UpdateCategorySpec(labels, scores);
    assert r[0] in multiset(pairs) by { assert r[0] in multiset(r); }
    var k :| 0 <= k < |pairs| && pairs[k] == r[0];
    assert pairs[w] in multiset(r);
    var m :| 0 <= m < |r| && r[m] == pairs[w];
    assert r[0].score == scores[w] by {
      assert scores[k] <= scores[w];
      if m > 0 {
        assert r[0].score >= r[m].score;
      }
    }
    WithScoreFirst(r, scores[w], 0);
    WithScoreFirst(pairs, scores[w], w);
  }

  /**
   With a vocabulary of unique terms, a word is attributed exactly when the
   vocabulary holds it and the document contains it.
   */
  lemma AttributedTerms(vocab: seq<string>, profiles: seq<ClassProfile>, tokens: seq<string>)
    requires Unique(vocab) && |profiles| > 0
    requires Aligned(profiles, |vocab|) && NoZeroEntries(profiles)
    ensures forall t :: t in Words(Attribute(vocab, profiles, WordVector(vocab, tokens))) <==> t in vocab && t in tokens
  {
    var counts := WordVector(vocab, tokens);
    var words := Words(Attribute(vocab, profiles, counts));
    AttributeMeaning(vocab, profiles, counts);
    WordVectorCounts(vocab, tokens);
    forall t
      ensures t in words <==> t in vocab && t in tokens
    {
      if t in words {
        var j :| 0 <= j < |words| && words[j] == t;
        assert multiset(tokens)[vocab[Present(counts)[j]]] > 0;
      }
      if t in vocab && t in tokens {
        var i :| 0 <= i < |vocab| && vocab[i] == t;
        assert counts[i] > 0;
        var j :| 0 <= j < |Present(counts)| && Present(counts)[j] == i;
        assert words[j] == t;
      }
    }
  }

  /**
   A document none of whose tokens the vocabulary holds scores every class
   at its log-prior and has an empty attribution list.
   */
  lemma UnknownDocument(vocab: seq<string>, profiles: seq<ClassProfile>, tokens: seq<string>)
    requires |profiles| > 0 && Aligned(profiles, |vocab|) && NoZeroEntries(profiles)
    requires forall k :: 0 <= k < |tokens| ==> tokens[k] !in vocab
    ensures forall c :: 0 <= c < |profiles| ==> Scores(profiles, WordVector(vocab, tokens))[c] == profiles[c].prior
    ensures Attribute(vocab, profiles, WordVector(vocab, tokens)) == []
  {
    NoKnownTokens(vocab, tokens);
    EmptyDocument(profiles, WordVector(vocab, tokens));
  }

  /**
   Classifying two documents read one after the other: each class scores
   the sum of the two documents' evidence plus its log-prior once.
   */
  lemma ConcatenatedDocument(vocab: seq<string>, profiles: seq<ClassProfile>, a: seq<string>, b: seq<string>)
    requires Aligned(profiles, |vocab|)
    ensures forall c :: 0 <= c < |profiles| ==>
      Scores(profiles, WordVector(vocab, a + b))[c]
        == Scores(profiles, WordVector(vocab, a))[c] + Scores(profiles, WordVector(vocab, b))[c] - profiles[c].prior
  {
    var x, y := WordVector(vocab, a), WordVector(vocab, b);
    WordVectorAppend(vocab, a, b);
    assert WordVector(vocab, a + b) == Plus(x, y);
    forall c | 0 <= c < |profiles|
      ensures Score(profiles[c], Plus(x, y)) == Score(profiles[c], x) + Score(profiles[c], y) - profiles[c].prior
    {
      ScoreAdds(profiles[c], x, y);
    }
  }
}
