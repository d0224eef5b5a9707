/** One-dimensional histograms as the ROOT files of the analysis store them,
    and the data-minus-background estimate `histdiff`. */
module Histograms {

  /** A histogram with flow slots: `edges` holds the N+1 bin boundaries of the
      N regular bins; `sumw` (contents) and `sumw2` (variances) hold all N+2
      slots, the underflow slot first and the overflow slot last. */
  datatype Hist = Hist(edges: seq<real>, sumw: seq<real>, sumw2: seq<real>)
  {
    predicate Valid() {
      |edges| >= 1 && |sumw| == |edges| + 1 && |sumw2| == |sumw|
    }
  }

  /** Contents and variances of an estimate, slot by slot. */
  datatype Estimate = Estimate(sumw: seq<real>, sumw2: seq<real>)

  predicate SameShape(a: Hist, b: Hist) {
    |a.sumw| == |b.sumw| && |a.sumw2| == |b.sumw2|
  }

  predicate NonNegative(s: seq<real>) {
    forall i :: 0 <= i < |s| ==> s[i] >= 0.0
  }

  /** `histdiff`: subtracts the contents of `b` from those of `a` in every slot
      (flow slots included) and adds the variances, as for two independent
      measurements. */
  function HistDiff(a: Hist, b: Hist): (r: Estimate)
    requires SameShape(a, b)
    ensures |r.sumw| == |a.sumw| && |r.sumw2| == |a.sumw2|
    ensures forall i :: 0 <= i < |r.sumw| ==> r.sumw[i] + b.sumw[i] == a.sumw[i]
    ensures forall i :: 0 <= i < |r.sumw2| ==> r.sumw2[i] - b.sumw2[i] == a.sumw2[i]
  {
    Estimate(seq(|a.sumw|, i requires 0 <= i < |a.sumw| => a.sumw[i] - b.sumw[i]),
             seq(|a.sumw2|, i requires 0 <= i < |a.sumw2| => a.sumw2[i] + b.sumw2[i]))
  }

  /** The variance of the estimate is never below either input variance, so it
      is non-negative whenever both inputs are. */
  lemma HistDiffVariance(a: Hist, b: Hist)
    requires SameShape(a, b) && NonNegative(a.sumw2) && NonNegative(b.sumw2)
    ensures NonNegative(HistDiff(a, b).sumw2)
    ensures forall i :: 0 <= i < |a.sumw2| ==>
      HistDiff(a, b).sumw2[i] >= a.sumw2[i] && HistDiff(a, b).sumw2[i] >= b.sumw2[i]
  {
  }
}
