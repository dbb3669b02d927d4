/**
 Winner selection and word attribution. The winner is the first class
 whose score equals the maximum. For every term the document holds, the
 attribution margin is the winner's evidence at that term minus each other
 class's evidence there, summed over all the other classes.
 */
module Attribution {
  import opened Scorer

  /** One entry of the attribution list: a vocabulary term and its margin. */
  datatype WordMargin = WordMargin(word: string, margin: real)

  /** The largest score. */
  function Max(s: seq<real>): (m: real)
    requires |s| > 0
    ensures m in s
    ensures forall i :: 0 <= i < |s| ==> s[i] <= m
  {
    if |s| == 1 then s[0]
    else
      var m' := Max(s[..|s| - 1]);
      assert m' in s by { assert s[..|s| - 1] <= s; }
      if s[|s| - 1] > m' then s[|s| - 1] else m'
  }

  /** The index of the winning class: the first one whose score is the maximum. */
  function Winner(s: seq<real>): (w: nat)
    requires |s| > 0
    ensures w < |s|
    ensures forall i :: 0 <= i < |s| ==> s[i] <= s[w]
    ensures forall i :: 0 <= i < w ==> s[i] < s[w]
  {
    if |s| == 1 then 0
    else
      var k := Winner(s[..|s| - 1]);
      if s[|s| - 1] > s[k] then |s| - 1 else k
  }

  /** The first index holding the maximum is the winner. */
  lemma FirstMaxIsWinner(s: seq<real>, i: nat)
    requires i < |s| && s[i] == Max(s)
    requires forall k :: 0 <= k < i ==> s[k] != Max(s)
    ensures i == Winner(s)
  {
  }

  /** Of two classes with the same top score, the earlier one wins. */
  lemma TieGoesToEarlier(s: seq<real>, a: nat, b: nat)
    requires a < b < |s| && s[a] == s[b] == Max(s)
    ensures Winner(s) <= a && Winner(s) != b
  {
  }

  /** A sequence without its `i`-th element. */
  function Remove<T>(s: seq<T>, i: nat): (r: seq<T>)
    requires i < |s|
    ensures |r| == |s| - 1
    ensures forall k :: 0 <= k < i ==> r[k] == s[k]
    ensures forall k :: i <= k < |r| ==> r[k] == s[k + 1]
  {
    s[..i] + s[i + 1..]
  }

  /** Every row has an entry at column `j`. */
  ghost predicate HasColumn(rows: seq<seq<real>>, j: nat) {
    forall c :: 0 <= c < |rows| ==> j < |rows[c]|
  }

  /** Every row has at least `n` entries. */
  ghost predicate HasColumnsBelow(rows: seq<seq<real>>, n: nat) {
    forall c :: 0 <= c < |rows| ==> n <= |rows[c]|
  }

  /** The sum over the first `n` of `rows`, in order, of `top[j] - row[j]`. */
  function Accumulated(top: seq<real>, rows: seq<seq<real>>, j: nat, n: nat): real
    requires j < |top| && n <= |rows| && HasColumn(rows, j)
  {
    if n == 0 then 0.0
    else Accumulated(top, rows, j, n - 1) + (top[j] - rows[n - 1][j])
  }

  /** The margin of row `w` over the first `n` rows other than `w`, at column `j`. */
  function MarginUpTo(rows: seq<seq<real>>, w: nat, j: nat, n: nat): real
    requires w < |rows| && n <= |rows| && HasColumn(rows, j)
  {
    if n == 0 then 0.0
    else MarginUpTo(rows, w, j, n - 1) + (if n - 1 == w then 0.0 else rows[w][j] - rows[n - 1][j])
  }

  /** The margin of row `w` over every other row, at column `j`. */
  function Margin(rows: seq<seq<real>>, w: nat, j: nat): real
    requires w < |rows| && HasColumn(rows, j)
  {
    MarginUpTo(rows, w, j, |rows|)
  }

  /**
   Accumulating over the rows left after removing row `w` reaches, after
   the rows that stood below `n`, the margin of row `w` over those rows.
   */
  lemma {:induction false} AccumulatedUpTo(rows: seq<seq<real>>, left: seq<seq<real>>, w: nat, j: nat, n: nat)
    requires w < |rows| && n <= |rows| && HasColumn(rows, j)
    requires left == Remove(rows, w) && HasColumn(left, j)
    ensures Accumulated(rows[w], left, j, if n <= w then n else n - 1) == MarginUpTo(rows, w, j, n)
  {
    if n > 0 {
      AccumulatedUpTo(rows, left, w, j, n - 1);
      if n - 1 < w {
        assert left[n - 1] == rows[n - 1];
      } else if n - 1 > w {
        assert left[n - 2] == rows[n - 1];
      }
    }
  }

  /**
   Accumulating the winner's row minus each remaining row, after the
   winner's row has been removed, gives the winner's margin.
   */
  lemma AccumulatedIsMargin(rows: seq<seq<real>>, w: nat, j: nat)
    requires w < |rows| && HasColumn(rows, j)
    ensures HasColumn(Remove(rows, w), j)
    ensures Accumulated(rows[w], Remove(rows, w), j, |rows| - 1) == Margin(rows, w, j)
  {
    var left := Remove(rows, w);
    assert HasColumn(left, j) by {
      forall c | 0 <= c < |left|
        ensures j < |left[c]|
      {
        assert left[c] == rows[if c < w then c else c + 1];
      }
    }
    AccumulatedUpTo(rows, left, w, j, |rows|);
  }

  /** With a single class there is nothing to beat: every margin is zero. */
  lemma SingleClassMargin(rows: seq<seq<real>>, j: nat)
    requires |rows| == 1 && HasColumn(rows, j)
    ensures Margin(rows, 0, j) == 0.0
  {
    assert MarginUpTo(rows, 0, j, 0) == 0.0;
  }

  /** Sum over classes below `n` other than `w` of the log-probability gap at term `p`. */
  function LogOddsGap(profiles: seq<ClassProfile>, w: nat, p: nat, n: nat): real
    requires w < |profiles| && n <= |profiles|
    requires forall c :: 0 <= c < |profiles| ==> p < |profiles[c].logProb|
  {
    if n == 0 then 0.0
    else
      LogOddsGap(profiles, w, p, n - 1)
      + (if n - 1 == w then 0.0 else profiles[w].logProb[p] - profiles[n - 1].logProb[p])
  }

  /**
   The attribution list: each present term with the winner's margin there,
   one entry per term the document holds.
   */
  function Attribute(vocab: seq<string>, profiles: seq<ClassProfile>, counts: seq<nat>): (r: seq<WordMargin>)
    requires |counts| == |vocab| && |profiles| > 0
    requires Aligned(profiles, |counts|) && NoZeroEntries(profiles)
    ensures |r| == |Present(counts)|
  {
    var present, rows, w := Present(counts), Evidence(profiles, counts), Winner(Scores(profiles, counts));
    EvidenceWidth(profiles, counts);
    seq(|present|, j requires 0 <= j < |present| => WordMargin(vocab[present[j]], Margin(rows, w, j)))
  }

  /**
   When column `j` of every row is class `c`'s log-probability of term `p`
   times the count `k`, the margin there is `k` times the log-odds gap.
   */
  lemma {:induction false} MarginIsCountTimesGap(rows: seq<seq<real>>, profiles: seq<ClassProfile>, w: nat, j: nat, p: nat, k: nat, n: nat)
    requires |rows| == |profiles| && w < |rows| && n <= |rows| && HasColumn(rows, j)
    requires forall c :: 0 <= c < |profiles| ==> p < |profiles[c].logProb|
    requires forall c :: 0 <= c < |rows| ==> rows[c][j] == Weighted(profiles[c].logProb[p], k)
    ensures MarginUpTo(rows, w, j, n) == Weighted(LogOddsGap(profiles, w, p, n), k)
  {
    if n > 0 {
      MarginIsCountTimesGap(rows, profiles, w, j, p, k, n - 1);
      var g, m := LogOddsGap(profiles, w, p, n - 1), MarginUpTo(rows, w, j, n - 1);
      assert m == Weighted(g, k);
      if n - 1 == w {
        assert LogOddsGap(profiles, w, p, n) == g;
        assert MarginUpTo(rows, w, j, n) == m;
      } else {
        var a, b := profiles[w].logProb[p], profiles[n - 1].logProb[p];
        assert LogOddsGap(profiles, w, p, n) == g + (a - b);
        assert MarginUpTo(rows, w, j, n) == m + (Weighted(a, k) - Weighted(b, k));
        WeightedLinear(g, a - b, k);
        WeightedLinear(a, b, k);
      }
    }
  }

  /** Margin of the `j`-th attributed term, in terms of the class profiles. */
  lemma AttributeAt(vocab: seq<string>, profiles: seq<ClassProfile>, counts: seq<nat>, j: nat)
    requires |counts| == |vocab| && |profiles| > 0
    requires Aligned(profiles, |counts|) && NoZeroEntries(profiles)
    requires j < |Present(counts)|
    ensures |Attribute(vocab, profiles, counts)| == |Present(counts)|
    ensures Attribute(vocab, profiles, counts)[j].word == vocab[Present(counts)[j]]
    ensures Attribute(vocab, profiles, counts)[j].margin ==
      Weighted(LogOddsGap(profiles, Winner(Scores(profiles, counts)), Present(counts)[j], |profiles|), counts[Present(counts)[j]])
  {
    var p, rows, w := Present(counts)[j], Evidence(profiles, counts), Winner(Scores(profiles, counts));
    EvidenceColumn(profiles, counts, j);
    assert Attribute(vocab, profiles, counts)[j].margin == Margin(rows, w, j);
    MarginIsCountTimesGap(rows, profiles, w, j, p, counts[p], |profiles|);
  }

  /**
   The attribution has one entry per term the document holds, in
   vocabulary order; the margin of term `p` is its count times the sum,
   over every other class, of the winner's log-probability of `p` minus
   that class's.
   */
  lemma AttributeMeaning(vocab: seq<string>, profiles: seq<ClassProfile>, counts: seq<nat>)
    requires |counts| == |vocab| && |profiles| > 0
    requires Aligned(profiles, |counts|) && NoZeroEntries(profiles)
    ensures |Attribute(vocab, profiles, counts)| == |Present(counts)|
    ensures forall j :: 0 <= j < |Present(counts)| ==>
      && Attribute(vocab, profiles, counts)[j].word == vocab[Present(counts)[j]]
      && Attribute(vocab, profiles, counts)[j].margin ==
           Weighted(LogOddsGap(profiles, Winner(Scores(profiles, counts)), Present(counts)[j], |profiles|), counts[Present(counts)[j]])
  {
    EvidenceWidth(profiles, counts);
    forall j | 0 <= j < |Present(counts)|
      ensures Attribute(vocab, profiles, counts)[j].word == vocab[Present(counts)[j]]
      ensures Attribute(vocab, profiles, counts)[j].margin ==
           Weighted(LogOddsGap(profiles, Winner(Scores(profiles, counts)), Present(counts)[j], |profiles|), counts[Present(counts)[j]])
    {
      AttributeAt(vocab, profiles, counts, j);
    }
  }

  /** With a single class every attribution margin is zero. */
  lemma SingleClassAttribution(vocab: seq<string>, profiles: seq<ClassProfile>, counts: seq<nat>)
    requires |counts| == |vocab| && |profiles| == 1
    requires Aligned(profiles, |counts|) && NoZeroEntries(profiles)
    ensures forall j :: 0 <= j < |Attribute(vocab, profiles, counts)| ==> Attribute(vocab, profiles, counts)[j].margin == 0.0
  {
    EvidenceWidth(profiles, counts);
    forall j | 0 <= j < |Attribute(vocab, profiles, counts)|
      ensures Attribute(vocab, profiles, counts)[j].margin == 0.0
    {
      SingleClassMargin(Evidence(profiles, counts), j);
    }
  }
}
