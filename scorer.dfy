/**
 The class scorer. For one class profile and a document's word-count
 vector it forms the element-wise product (the evidence vector), keeps the
 entries that are non-zero, and adds the product's sum to the class
 log-prior to get the class's log-posterior score. Log-probabilities and
 scores are real numbers here, not floating point.
 */
module Scorer {

  /** A trained class: one log-probability per vocabulary term and a log-prior. */
  datatype ClassProfile = ClassProfile(logProb: seq<real>, prior: real)

  /** Every profile has one log-probability per vocabulary term. */
  ghost predicate Aligned(profiles: seq<ClassProfile>, width: nat) {
    forall c :: 0 <= c < |profiles| ==> |profiles[c].logProb| == width
  }

  /** No log-probability of any class is zero (training-time smoothing guarantees it). */
  ghost predicate NoZeroEntries(profiles: seq<ClassProfile>) {
    forall c, i :: 0 <= c < |profiles| && 0 <= i < |profiles[c].logProb| ==> profiles[c].logProb[i] != 0.0
  }

  /** The evidence a term contributes: its log-probability times its count. */
  function Weighted(logProb: real, count: nat): real {
    logProb * count as real
  }

  /** Weighting by a count distributes over sums and differences of log-probabilities. */
  lemma WeightedLinear(x: real, y: real, k: nat)
    ensures Weighted(x + y, k) == Weighted(x, k) + Weighted(y, k)
    ensures Weighted(x - y, k) == Weighted(x, k) - Weighted(y, k)
  {
  }

  /** Weighting by the sum of two counts is the sum of the two weightings. */
  lemma WeightedCounts(x: real, k: nat, m: nat)
    ensures Weighted(x, k + m) == Weighted(x, k) + Weighted(x, m)
  {
  }

  /**
   Element-wise product of a log-probability vector and a count vector. An
   entry is zero exactly where the log-probability or the count is zero.
   */
  function Product(logProb: seq<real>, counts: seq<nat>): (r: seq<real>)
    requires |logProb| == |counts|
    ensures |r| == |logProb|
    ensures forall i :: 0 <= i < |r| ==> (r[i] == 0.0 <==> logProb[i] == 0.0 || counts[i] == 0)
  {
    seq(|logProb|, i requires 0 <= i < |logProb| => Weighted(logProb[i], counts[i]))
  }

  /** Sum of a vector, added up from left to right. */
  function Sum(v: seq<real>): real {
    if v == [] then 0.0 else Sum(v[..|v| - 1]) + v[|v| - 1]
  }

  /** A vector of zeros sums to zero. */
  lemma {:induction false} SumOfZeros(v: seq<real>)
    ensures (forall i :: 0 <= i < |v| ==> v[i] == 0.0) ==> Sum(v) == 0.0
  {
    if v != [] {
      SumOfZeros(v[..|v| - 1]);
    }
  }

  /**
   The log-posterior of one class: sum of its evidence plus its log-prior.
   With no term counted, it is the log-prior.
   */
  function Score(p: ClassProfile, counts: seq<nat>): (r: real)
    requires |p.logProb| == |counts|
    ensures (forall i :: 0 <= i < |counts| ==> counts[i] == 0) ==> r == p.prior
  {
    SumOfZeros(Product(p.logProb, counts));
    Sum(Product(p.logProb, counts)) + p.prior
  }

  /** One log-posterior per class, in class order. */
  function Scores(profiles: seq<ClassProfile>, counts: seq<nat>): (r: seq<real>)
    requires Aligned(profiles, |counts|)
    ensures |r| == |profiles|
  {
    seq(|profiles|, c requires 0 <= c < |profiles| => Score(profiles[c], counts))
  }

  /** Ascending positions of the non-zero entries of `v`. */
  function NonZeroIndices(v: seq<real>): (r: seq<nat>)
    ensures forall k :: 0 <= k < |r| ==> r[k] < |v| && v[r[k]] != 0.0
    ensures forall i :: 0 <= i < |v| && v[i] != 0.0 ==> i in r
    ensures forall a, b :: 0 <= a < b < |r| ==> r[a] < r[b]
  {
    if v == [] then []
    else NonZeroIndices(v[..|v| - 1]) + (if v[|v| - 1] != 0.0 then [|v| - 1] else [])
  }

  /** The entries of `s` at positions `idx`, in the order of `idx`. */
  function Gather<T>(s: seq<T>, idx: seq<nat>): (r: seq<T>)
    requires forall k :: 0 <= k < |idx| ==> idx[k] < |s|
    ensures |r| == |idx|
  {
    seq(|idx|, k requires 0 <= k < |idx| => s[idx[k]])
  }

  /** A count vector read as reals. */
  function AsReals(counts: seq<nat>): (r: seq<real>) {
    seq(|counts|, i requires 0 <= i < |counts| => counts[i] as real)
  }

  /** Ascending positions of the terms the document holds (count above zero). */
  function Present(counts: seq<nat>): (r: seq<nat>)
    ensures forall k :: 0 <= k < |r| ==> r[k] < |counts| && counts[r[k]] > 0
    ensures forall i :: 0 <= i < |counts| && counts[i] > 0 ==> i in r
    ensures forall a, b :: 0 <= a < b < |r| ==> r[a] < r[b]
  {
    NonZeroIndices(AsReals(counts))
  }

  /** The non-zero sub-vector of an evidence vector: one entry per non-zero position, none of them zero. */
  function NonZeroPart(v: seq<real>): (r: seq<real>)
    ensures |r| == |NonZeroIndices(v)|
    ensures forall k :: 0 <= k < |r| ==> r[k] != 0.0
  {
    Gather(v, NonZeroIndices(v))
  }

  /** Each class's non-zero evidence sub-vector, in class order; no kept entry is zero. */
  function Evidence(profiles: seq<ClassProfile>, counts: seq<nat>): (r: seq<seq<real>>)
    requires Aligned(profiles, |counts|)
    ensures |r| == |profiles|
    ensures forall c, k :: 0 <= c < |r| && 0 <= k < |r[c]| ==> r[c][k] != 0.0
  {
    seq(|profiles|, c requires 0 <= c < |profiles| => NonZeroPart(Product(profiles[c].logProb, counts)))
  }

  /** Two vectors that are zero at the same places have the same non-zero positions. */
  lemma {:induction false} SameSupport(v: seq<real>, w: seq<real>)
    requires |v| == |w|
    requires forall i :: 0 <= i < |v| ==> (v[i] != 0.0 <==> w[i] != 0.0)
    ensures NonZeroIndices(v) == NonZeroIndices(w)
  {
    if v != [] {
      SameSupport(v[..|v| - 1], w[..|w| - 1]);
    }
  }

  /**
   With no zero log-probability, the evidence vector is non-zero exactly
   where the document holds the term, whatever the class.
   */
  lemma NonZeroIsPresent(logProb: seq<real>, counts: seq<nat>)
    requires |logProb| == |counts|
    requires forall i :: 0 <= i < |logProb| ==> logProb[i] != 0.0
    ensures NonZeroIndices(Product(logProb, counts)) == Present(counts)
  {
    var v, w := Product(logProb, counts), AsReals(counts);
    SameSupport(v, w);
  }

  /** The kept terms, and so the sub-vector length, are the same for every class. */
  lemma SharedSupport(profiles: seq<ClassProfile>, counts: seq<nat>, c: nat, d: nat)
    requires Aligned(profiles, |counts|) && NoZeroEntries(profiles)
    requires c < |profiles| && d < |profiles|
    ensures NonZeroIndices(Product(profiles[c].logProb, counts)) == NonZeroIndices(Product(profiles[d].logProb, counts))
  {
    NonZeroIsPresent(profiles[c].logProb, counts);
    NonZeroIsPresent(profiles[d].logProb, counts);
  }

  /** Every class's evidence row has one entry per term the document holds. */
  lemma EvidenceWidth(profiles: seq<ClassProfile>, counts: seq<nat>)
    requires Aligned(profiles, |counts|) && NoZeroEntries(profiles)
    ensures |Evidence(profiles, counts)| == |profiles|
    ensures forall c :: 0 <= c < |profiles| ==> |Evidence(profiles, counts)[c]| == |Present(counts)|
  {
    forall c | 0 <= c < |profiles|
      ensures NonZeroIndices(Product(profiles[c].logProb, counts)) == Present(counts)
    {
      NonZeroIsPresent(profiles[c].logProb, counts);
    }
  }

  /**
   Column `j` of the evidence rows: each class's log-probability of the
   `j`-th present term times the term's count.
   */
  lemma EvidenceColumn(profiles: seq<ClassProfile>, counts: seq<nat>, j: nat)
    requires Aligned(profiles, |counts|) && NoZeroEntries(profiles)
    requires j < |Present(counts)|
    ensures |Evidence(profiles, counts)| == |profiles|
    ensures forall c :: 0 <= c < |profiles| ==> |Evidence(profiles, counts)[c]| == |Present(counts)|
    ensures forall c :: 0 <= c < |profiles| ==>
      Evidence(profiles, counts)[c][j] == Weighted(profiles[c].logProb[Present(counts)[j]], counts[Present(counts)[j]])
  {
    EvidenceWidth(profiles, counts);
    forall c | 0 <= c < |profiles|
      ensures NonZeroIndices(Product(profiles[c].logProb, counts)) == Present(counts)
    {
      NonZeroIsPresent(profiles[c].logProb, counts);
    }
  }

  lemma {:induction false} ZerosHaveNoSupport(v: seq<real>)
    requires forall i :: 0 <= i < |v| ==> v[i] == 0.0
    ensures NonZeroIndices(v) == []
  {
    if v != [] {
      ZerosHaveNoSupport(v[..|v| - 1]);
    }
  }

  /** A document with no known term scores every class at its log-prior and has no evidence. */
  lemma EmptyDocument(profiles: seq<ClassProfile>, counts: seq<nat>)
    requires Aligned(profiles, |counts|)
    requires forall i :: 0 <= i < |counts| ==> counts[i] == 0
    ensures forall c :: 0 <= c < |profiles| ==> Scores(profiles, counts)[c] == profiles[c].prior
    ensures Present(counts) == []
  {
    ZerosHaveNoSupport(AsReals(counts));
  }

  /** Element-wise sum of two count vectors. */
  function Plus(x: seq<nat>, y: seq<nat>): (r: seq<nat>)
    requires |x| == |y|
  {
    seq(|x|, i requires 0 <= i < |x| => x[i] + y[i])
  }

  lemma {:induction false} EvidenceAdds(logProb: seq<real>, x: seq<nat>, y: seq<nat>)
    requires |logProb| == |x| == |y|
    ensures Sum(Product(logProb, Plus(x, y))) == Sum(Product(logProb, x)) + Sum(Product(logProb, y))
  {
    if logProb != [] {
      var n := |logProb| - 1;
      EvidenceAdds(logProb[..n], x[..n], y[..n]);
      assert Product(logProb, Plus(x, y))[..n] == Product(logProb[..n], Plus(x[..n], y[..n]));
      assert Product(logProb, x)[..n] == Product(logProb[..n], x[..n]);
      assert Product(logProb, y)[..n] == Product(logProb[..n], y[..n]);
      WeightedCounts(logProb[n], x[n], y[n]);
    }
  }

  /**
   The score of two count vectors added together is the sum of their
   evidence plus the log-prior counted once.
   */
  lemma ScoreAdds(p: ClassProfile, x: seq<nat>, y: seq<nat>)
    requires |p.logProb| == |x| == |y|
    ensures Score(p, Plus(x, y)) == Score(p, x) + Score(p, y) - p.prior
  {
    EvidenceAdds(p.logProb, x, y);
  }
}
