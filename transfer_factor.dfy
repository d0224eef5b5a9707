/** The transfer factor: the per-bin ratio of the QCD yield in the signal
    region to that in the control region, with its propagated variance, and
    the histogram `make_templates` stores for it. */
module TransferFactor {
  import opened Histograms

  /** Square of `ratio_unc(num, den, dnum, dden)` = hypot(dnum / den,
      dden * num / den^2): first-order propagation of the uncertainties of an
      independent numerator and denominator through num / den, written for
      the variances varNum = dnum^2 and varDen = dden^2. */
  function RatioVariance(num: real, den: real, varNum: real, varDen: real): (v: real)
    requires den != 0.0
    ensures varNum >= 0.0 && varDen >= 0.0 ==> v >= 0.0
  {
    varNum * ((1.0 / den) * (1.0 / den))
      + varDen * ((num / (den * den)) * (num / (den * den)))
  }

  /** Multiplied out, the propagated variance says
        den^2 * var(num / den) == var(num) + (num / den)^2 * var(den),
      i.e. the relative variances of numerator and denominator add. */
  lemma RatioVarianceScaled(num: real, den: real, varNum: real, varDen: real)
    requires den != 0.0
    ensures RatioVariance(num, den, varNum, varDen) * (den * den)
         == varNum + varDen * ((num / den) * (num / den))
  {
    assert (1.0 / den) * den == 1.0;
    assert num / (den * den) == (num / den) * (1.0 / den);
    assert (CancelInverse(varNum, varDen, num / den, 1.0 / den, den);
            (varNum * ((1.0 / den) * (1.0 / den))
              + varDen * (((num / den) * (1.0 / den)) * ((num / den) * (1.0 / den)))) * (den * den)
            == varNum + varDen * ((num / den) * (num / den)));
  }

  /** Algebra behind RatioVarianceScaled, on plain variables: u is the
      inverse of d. */
  lemma CancelInverse(a: real, b: real, t: real, u: real, d: real)
    requires u * d == 1.0
    ensures (a * (u * u) + b * ((t * u) * (t * u))) * (d * d) == a + b * (t * t)
  {
    assert (u * u) * (d * d) == (u * d) * (u * d);
    assert ((t * u) * (t * u)) * (d * d) == (t * t) * ((u * d) * (u * d));
  }

  /** A worked case: SR = 100 +- 10 over CR = 50 +- 5 gives a
      transfer factor of 2 with variance 0.08, i.e. uncertainty hypot(0.2, 0.2). */
  lemma RatioExample()
    ensures 100.0 / 50.0 == 2.0
    ensures RatioVariance(100.0, 50.0, 10.0 * 10.0, 5.0 * 5.0) == 0.2 * 0.2 + 0.2 * 0.2
  {
  }

  /** The per-bin transfer factor sr / cr. */
  function Ratios(sr: seq<real>, cr: seq<real>): (tf: seq<real>)
    requires |cr| == |sr| && forall i :: 0 <= i < |cr| ==> cr[i] != 0.0
    ensures |tf| == |sr|
    ensures forall i :: 0 <= i < |sr| ==> tf[i] == sr[i] / cr[i]
  {
    seq(|sr|, i requires 0 <= i < |sr| => sr[i] / cr[i])
  }

  /** The per-bin variance of the transfer factor; never negative when the
      variances it propagates are not. */
  function RatioVariances(sr: seq<real>, cr: seq<real>, srVar: seq<real>, crVar: seq<real>): (v: seq<real>)
    requires |cr| == |sr| && |srVar| == |sr| && |crVar| == |sr|
    requires forall i :: 0 <= i < |cr| ==> cr[i] != 0.0
    ensures |v| == |sr|
    ensures forall i :: 0 <= i < |sr| ==> v[i] == RatioVariance(sr[i], cr[i], srVar[i], crVar[i])
    ensures NonNegative(srVar) && NonNegative(crVar) ==> NonNegative(v)
  {
    seq(|sr|, i requires 0 <= i < |sr| => RatioVariance(sr[i], cr[i], srVar[i], crVar[i]))
  }

  /** A per-bin sequence with zero underflow and overflow slots around it. */
  function Padded(s: seq<real>): (r: seq<real>)
    ensures |r| == |s| + 2 && r[0] == 0.0 && r[|r| - 1] == 0.0
    ensures forall i :: 0 <= i < |s| ==> r[i + 1] == s[i]
    ensures NonNegative(s) ==> NonNegative(r)
  {
    [0.0] + s + [0.0]
  }

  /** The stored transfer-factor histogram: edges of the recoil binning,
      contents [0] ++ sr/cr ++ [0] and variances [0] ++ ratio_unc^2 ++ [0],
      the zeros filling the underflow and overflow slots. */
  function TransferFactorHist(edges: seq<real>, sr: seq<real>, cr: seq<real>,
                              srVar: seq<real>, crVar: seq<real>): (h: Hist)
    requires |edges| >= 1
    requires |sr| == |edges| - 1 && |cr| == |sr| && |srVar| == |sr| && |crVar| == |sr|
    requires forall i :: 0 <= i < |cr| ==> cr[i] != 0.0
    ensures h.Valid() && h.edges == edges
    ensures h.sumw[0] == 0.0 && h.sumw[|h.sumw| - 1] == 0.0
    ensures h.sumw2[0] == 0.0 && h.sumw2[|h.sumw2| - 1] == 0.0
    ensures forall i :: 0 <= i < |cr| ==> h.sumw[i + 1] == sr[i] / cr[i]
    ensures NonNegative(srVar) && NonNegative(crVar) ==> NonNegative(h.sumw2)
  {
    Hist(edges, Padded(Ratios(sr, cr)), Padded(RatioVariances(sr, cr, srVar, crVar)))
  }

  /** Every regular bin of the stored histogram carries ratio_unc^2 of its
      bin as its variance. */
  lemma TransferFactorVariances(edges: seq<real>, sr: seq<real>, cr: seq<real>,
                                srVar: seq<real>, crVar: seq<real>)
    requires |edges| >= 1
    requires |sr| == |edges| - 1 && |cr| == |sr| && |srVar| == |sr| && |crVar| == |sr|
    requires forall i :: 0 <= i < |cr| ==> cr[i] != 0.0
    ensures var h := TransferFactorHist(edges, sr, cr, srVar, crVar);
      forall i :: 0 <= i < |cr| ==> h.sumw2[i + 1] == RatioVariance(sr[i], cr[i], srVar[i], crVar[i])
  {
  }

  /** The transfer factor times the control-region yield gives back the
      signal-region yield, bin by bin. */
  lemma RatiosInvert(sr: seq<real>, cr: seq<real>)
    requires |cr| == |sr| && forall i :: 0 <= i < |cr| ==> cr[i] != 0.0
    ensures forall i :: 0 <= i < |sr| ==> Ratios(sr, cr)[i] * cr[i] == sr[i]
  {
    forall i | 0 <= i < |sr|
      ensures Ratios(sr, cr)[i] * cr[i] == sr[i]
    {
      QuotientTimesDivisor(sr[i], cr[i]);
    }
  }

  lemma QuotientTimesDivisor(a: real, b: real)
    requires b != 0.0
    ensures (a / b) * b == a
  {
  }
}
