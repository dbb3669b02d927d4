/**
 The word-count vector of a document: one counter per vocabulary term,
 aligned index for index with the vocabulary. A token is counted at the
 position of its first occurrence in the vocabulary; a token the
 vocabulary does not hold is ignored.
 */
module Vectorizer {

  /** No term appears twice in the vocabulary. */
  ghost predicate Unique(vocab: seq<string>) {
    forall i, j :: 0 <= i < j < |vocab| ==> vocab[i] != vocab[j]
  }

  /** Position of the first occurrence of `t` in `vocab` (a list's `index`). */
  function IndexOf(vocab: seq<string>, t: string): (k: nat)
    requires t in vocab
    ensures k < |vocab| && vocab[k] == t
    ensures forall i :: 0 <= i < k ==> vocab[i] != t
  {
    if vocab[0] == t then 0 else 1 + IndexOf(vocab[1..], t)
  }

  /** Token `t` is counted at feature index `j`. */
  predicate CountedAt(vocab: seq<string>, t: string, j: nat) {
    t in vocab && IndexOf(vocab, t) == j
  }

  /**
   How many of `tokens` are counted at feature index `j`: never more than
   there are tokens, and none unless the document contains `vocab[j]`.
   */
  function Occurrences(vocab: seq<string>, tokens: seq<string>, j: nat): (r: nat)
    ensures r <= |tokens|
    ensures r > 0 ==> j < |vocab| && vocab[j] in tokens
  {
    if tokens == [] then 0
    else
      var init := tokens[..|tokens| - 1];
      assert forall t :: t in init ==> t in tokens;
      Occurrences(vocab, init, j) + (if CountedAt(vocab, tokens[|tokens| - 1], j) then 1 else 0)
  }

  /** The word-count vector of `tokens` over `vocab`: one counter per term. */
  function WordVector(vocab: seq<string>, tokens: seq<string>): (r: seq<nat>)
    ensures |r| == |vocab|
  {
    seq(|vocab|, j requires 0 <= j < |vocab| => Occurrences(vocab, tokens, j))
  }

  /** The tokens the vocabulary knows, in their original order. */
  function Known(vocab: seq<string>, tokens: seq<string>): seq<string> {
    if tokens == [] then []
    else
      Known(vocab, tokens[..|tokens| - 1])
      + (if tokens[|tokens| - 1] in vocab then [tokens[|tokens| - 1]] else [])
  }

  /** Reading one more token bumps exactly the counter of its first position, or nothing. */
  lemma WordVectorStep(vocab: seq<string>, tokens: seq<string>, i: nat)
    requires i < |tokens|
    ensures tokens[i] in vocab ==>
      WordVector(vocab, tokens[..i + 1]) ==
        WordVector(vocab, tokens[..i])[IndexOf(vocab, tokens[i]) := WordVector(vocab, tokens[..i])[IndexOf(vocab, tokens[i])] + 1]
    ensures tokens[i] !in vocab ==> WordVector(vocab, tokens[..i + 1]) == WordVector(vocab, tokens[..i])
  {
    assert tokens[..i + 1][..i] == tokens[..i];
  }

  /**
   Counter `j` is the number of tokens equal to `vocab[j]` when `j` is that
   term's first position, and zero when the term occurs earlier.
   */
  lemma {:induction false} OccurrencesByTerm(vocab: seq<string>, tokens: seq<string>, j: nat)
    requires j < |vocab|
    ensures Occurrences(vocab, tokens, j) ==
      if IndexOf(vocab, vocab[j]) == j then multiset(tokens)[vocab[j]] else 0
  {
    if tokens != [] {
      var init, t := tokens[..|tokens| - 1], tokens[|tokens| - 1];
      OccurrencesByTerm(vocab, init, j);
      assert tokens == init + [t];
      assert CountedAt(vocab, t, j) <==> t == vocab[j] && IndexOf(vocab, vocab[j]) == j;
    }
  }

  /**
   With a vocabulary of unique terms, entry `j` of the word vector is the
   number of tokens equal to `vocab[j]`.
   */
  lemma OccurrencesCountTerm(vocab: seq<string>, tokens: seq<string>, j: nat)
    requires Unique(vocab) && j < |vocab|
    ensures Occurrences(vocab, tokens, j) == multiset(tokens)[vocab[j]]
  {
    OccurrencesByTerm(vocab, tokens, j);
  }

  lemma WordVectorCounts(vocab: seq<string>, tokens: seq<string>)
    requires Unique(vocab)
    ensures |WordVector(vocab, tokens)| == |vocab|
    ensures forall j :: 0 <= j < |vocab| ==> WordVector(vocab, tokens)[j] == multiset(tokens)[vocab[j]]
  {
    forall j | 0 <= j < |vocab|
      ensures WordVector(vocab, tokens)[j] == multiset(tokens)[vocab[j]]
    {
      OccurrencesCountTerm(vocab, tokens, j);
    }
  }

  lemma {:induction false} KnownAppend(vocab: seq<string>, a: seq<string>, b: seq<string>)
    ensures Known(vocab, a + b) == Known(vocab, a) + Known(vocab, b)
  {
    if b != [] {
      var init := b[..|b| - 1];
      assert (a + b)[..|a + b| - 1] == a + init;
      KnownAppend(vocab, a, init);
    } else {
      assert a + b == a;
    }
  }

  lemma {:induction false} OccurrencesKnown(vocab: seq<string>, tokens: seq<string>, j: nat)
    ensures Occurrences(vocab, Known(vocab, tokens), j) == Occurrences(vocab, tokens, j)
  {
    if tokens != [] {
      var init, t := tokens[..|tokens| - 1], tokens[|tokens| - 1];
      OccurrencesKnown(vocab, init, j);
      var k := Known(vocab, init);
      if t in vocab {
        assert Known(vocab, tokens) == k + [t];
        assert (k + [t])[..|k + [t]| - 1] == k;
      } else {
        assert Known(vocab, tokens) == k;
      }
    }
  }

  /** Dropping every token the vocabulary does not know leaves the word vector unchanged. */
  lemma UnknownTokensIgnored(vocab: seq<string>, tokens: seq<string>)
    ensures WordVector(vocab, Known(vocab, tokens)) == WordVector(vocab, tokens)
  {
    forall j | 0 <= j < |vocab|
      ensures WordVector(vocab, Known(vocab, tokens))[j] == WordVector(vocab, tokens)[j]
    {
      OccurrencesKnown(vocab, tokens, j);
    }
  }

  /** Inserting (or, read backwards, removing) an unknown token anywhere changes nothing. */
  lemma UnknownTokenInserted(vocab: seq<string>, a: seq<string>, u: string, b: seq<string>)
    requires u !in vocab
    ensures WordVector(vocab, a + [u] + b) == WordVector(vocab, a + b)
  {
    KnownAppend(vocab, a + [u], b);
    KnownAppend(vocab, a, [u]);
    KnownAppend(vocab, a, b);
    assert [u][..0] == [];
    assert Known(vocab, [u]) == [];
    assert Known(vocab, a + [u] + b) == Known(vocab, a + b);
    UnknownTokensIgnored(vocab, a + [u] + b);
    UnknownTokensIgnored(vocab, a + b);
  }

  /** A document sharing no term with the vocabulary has the all-zero word vector. */
  lemma NoKnownTokens(vocab: seq<string>, tokens: seq<string>)
    requires forall k :: 0 <= k < |tokens| ==> tokens[k] !in vocab
    ensures WordVector(vocab, tokens) == seq(|vocab|, _ => 0)
  {
  }

  lemma {:induction false} OccurrencesAppend(vocab: seq<string>, a: seq<string>, b: seq<string>, j: nat)
    ensures Occurrences(vocab, a + b, j) == Occurrences(vocab, a, j) + Occurrences(vocab, b, j)
  {
    if b == [] {
      assert a + b == a;
    } else {
      var init := b[..|b| - 1];
      assert (a + b)[..|a + b| - 1] == a + init;
      OccurrencesAppend(vocab, a, init, j);
    }
  }

  /** The word vector of two documents read one after the other is the sum of their word vectors. */
  lemma WordVectorAppend(vocab: seq<string>, a: seq<string>, b: seq<string>)
    ensures |WordVector(vocab, a + b)| == |vocab|
    ensures forall j :: 0 <= j < |vocab| ==>
      WordVector(vocab, a + b)[j] == WordVector(vocab, a)[j] + WordVector(vocab, b)[j]
  {
    forall j | 0 <= j < |vocab|
      ensures Occurrences(vocab, a + b, j) == Occurrences(vocab, a, j) + Occurrences(vocab, b, j)
    {
      OccurrencesAppend(vocab, a, b, j);
    }
  }

  /** Reordering the tokens leaves the word vector unchanged. */
  lemma TokenOrderIrrelevant(vocab: seq<string>, a: seq<string>, b: seq<string>)
    requires multiset(a) == multiset(b)
    ensures WordVector(vocab, a) == WordVector(vocab, b)
  {
    forall j | 0 <= j < |vocab|
      ensures Occurrences(vocab, a, j) == Occurrences(vocab, b, j)
    {
      OccurrencesByTerm(vocab, a, j);
      OccurrencesByTerm(vocab, b, j);
    }
  }
}
