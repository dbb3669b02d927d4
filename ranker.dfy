/**
 The ranker. Each class label is paired with its score, and the pairs are
 sorted by score, highest first, with a stable sort: pairs with equal
 scores keep their original class order.
 */
module Ranker {

  /** A class label and its log-posterior score. */
  datatype Ranked = Ranked(category: string, score: real)

  /** The (label, score) pairs in class order. */
  function Pairs(labels: seq<string>, scores: seq<real>): (r: seq<Ranked>)
    requires |labels| == |scores|
    ensures |r| == |scores|
  {
    seq(|scores|, i requires 0 <= i < |scores| => Ranked(labels[i], scores[i]))
  }

  /** Puts `x` in front of the first pair whose score is not above its own. */
  function Insert(x: Ranked, s: seq<Ranked>): (r: seq<Ranked>)
    ensures |r| == |s| + 1
  {
    if s == [] || x.score >= s[0].score then [x] + s
    else [s[0]] + Insert(x, s[1..])
  }

  /** Inserting `x` yields exactly the pairs of `s` and `x`. */
  lemma {:induction false} InsertPermutes(x: Ranked, s: seq<Ranked>)
    ensures multiset(Insert(x, s)) == multiset(s) + multiset{x}
  {
    if s != [] && x.score < s[0].score {
      InsertPermutes(x, s[1..]);
      assert s == [s[0]] + s[1..];
    }
  }

  /** Stable sort by descending score. The result is a permutation of `s`. */
  function SortDescending(s: seq<Ranked>): (r: seq<Ranked>)
    ensures multiset(r) == multiset(s)
  {
    if s == [] then []
    else
      assert s == [s[0]] + s[1..];
      InsertPermutes(s[0], SortDescending(s[1..]));
      Insert(s[0], SortDescending(s[1..]))
  }

  /**
   The ranking: labels with their scores, highest score first. It has one
   pair per class and is a permutation of the (label, score) pairs.
   */
  function UpdateCategory(labels: seq<string>, scores: seq<real>): (r: seq<Ranked>)
    requires |labels| == |scores|
    ensures |r| == |scores|
    ensures multiset(r) == multiset(Pairs(labels, scores))
    ensures Descending(r)
  {
    var r := SortDescending(Pairs(labels, scores));
    SortIsDescending(Pairs(labels, scores));
    assert |multiset(r)| == |multiset(Pairs(labels, scores))|;
    r
  }

  ghost predicate Descending(s: seq<Ranked>) {
    forall a, b :: 0 <= a < b < |s| ==> s[a].score >= s[b].score
  }

  /** The pairs of `s` whose score is `v`, in their order in `s`. */
  function WithScore(s: seq<Ranked>, v: real): seq<Ranked> {
    if s == [] then []
    else (if s[0].score == v then [s[0]] else []) + WithScore(s[1..], v)
  }

  lemma {:induction false} InsertDescending(x: Ranked, s: seq<Ranked>)
    requires Descending(s)
    ensures Descending(Insert(x, s))
  {
    if s != [] && x.score < s[0].score {
      InsertDescending(x, s[1..]);
      InsertPermutes(x, s[1..]);
      var t := Insert(x, s[1..]);
      forall b | 0 <= b < |t|
        ensures s[0].score >= t[b].score
      {
        assert t[b] in multiset(s[1..]) + multiset{x};
      }
    }
  }

  /** Inserting `x` puts it before every pair of the same score; other scores are untouched. */
  lemma {:induction false} InsertWithScore(x: Ranked, s: seq<Ranked>, v: real)
    ensures WithScore(Insert(x, s), v) == (if x.score == v then [x] else []) + WithScore(s, v)
  {
    var mine := if x.score == v then [x] else [];
    if s == [] || x.score >= s[0].score {
      assert ([x] + s)[1..] == s;
    } else {
      var head := if s[0].score == v then [s[0]] else [];
      var rest := Insert(x, s[1..]);
      InsertWithScore(x, s[1..], v);
      assert ([s[0]] + rest)[1..] == rest;
      assert head == [] || mine == [];
      calc {
        WithScore(Insert(x, s), v);
        head + WithScore(rest, v);
        head + (mine + WithScore(s[1..], v));
        mine + (head + WithScore(s[1..], v));
        mine + WithScore(s, v);
      }
    }
  }

  /** The ranking is in descending order of score. */
  lemma {:induction false} SortIsDescending(s: seq<Ranked>)
    ensures Descending(SortDescending(s))
  {
    if s != [] {
      SortIsDescending(s[1..]);
      InsertDescending(s[0], SortDescending(s[1..]));
    }
  }

  /** Stability: for every score, the pairs with that score keep their relative order. */
  lemma {:induction false} SortIsStable(s: seq<Ranked>, v: real)
    ensures WithScore(SortDescending(s), v) == WithScore(s, v)
  {
    if s != [] {
      SortIsStable(s[1..], v);
      InsertWithScore(s[0], SortDescending(s[1..]), v);
    }
  }

  /** The first pair with score `v` heads the pairs with that score. */
  lemma {:induction false} WithScoreFirst(s: seq<Ranked>, v: real, k: nat)
    requires k < |s| && s[k].score == v
    requires forall i :: 0 <= i < k ==> s[i].score != v
    ensures |WithScore(s, v)| > 0 && WithScore(s, v)[0] == s[k]
  {
    if k > 0 {
      WithScoreFirst(s[1..], v, k - 1);
    }
  }

  /**
   The ranking has one pair per class, is a permutation of the
   (label, score) pairs, is in descending order of score, and lists the
   pairs of equal score in class order.
   */
  lemma UpdateCategorySpec(labels: seq<string>, scores: seq<real>)
    requires |labels| == |scores|
    ensures |UpdateCategory(labels, scores)| == |scores|
    ensures multiset(UpdateCategory(labels, scores)) == multiset(Pairs(labels, scores))
    ensures Descending(UpdateCategory(labels, scores))
    ensures forall v :: WithScore(UpdateCategory(labels, scores), v) == WithScore(Pairs(labels, scores), v)
  {
    forall v
      ensures WithScore(UpdateCategory(labels, scores), v) == WithScore(Pairs(labels, scores), v)
    {
      SortIsStable(Pairs(labels, scores), v);
    }
  }

  /**
   The exponents of the relative likelihoods: each ranked score minus the
   top score. The relative likelihood of entry `k` is two to the power of
   entry `k`.
   */
  function RelativeExponents(ranking: seq<Ranked>): (r: seq<real>)
    requires |ranking| > 0
    ensures |r| == |ranking| && r[0] == 0.0
    ensures Descending(ranking) ==> forall k :: 0 <= k < |r| ==> r[k] <= 0.0
  {
    seq(|ranking|, k requires 0 <= k < |ranking| => ranking[k].score - ranking[0].score)
  }

  /**
   On the ranking, the head's exponent is zero, so its relative likelihood
   is 2^0 = 1, and no exponent is positive, so no relative likelihood
   exceeds 1.
   */
  lemma RelativeExponentsSpec(labels: seq<string>, scores: seq<real>)
    requires |labels| == |scores| > 0
    ensures |UpdateCategory(labels, scores)| == |scores|
    ensures RelativeExponents(UpdateCategory(labels, scores))[0] == 0.0
    ensures forall k :: 0 <= k < |scores| ==> RelativeExponents(UpdateCategory(labels, scores))[k] <= 0.0
  {
  }
}
