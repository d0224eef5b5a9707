/** The points `fit_tf` hands to the transfer-factor fit: read back from the
    stored transfer-factor histogram, uncertainties repaired, bin geometry
    patched. The square root is a parameter `sqrt`. */
module FitInputs {
  import opened Histograms
  import opened Bins
  import opened Repair
  import TransferFactor

  /** The uncertainties before the repair: the square root of every variance
      past the underflow slot. */
  function RawUncertainties(h: Hist, sqrt: real -> real): (dtf: seq<real>)
    requires h.Valid()
    ensures |dtf| == |h.edges|
  {
    seq(|h.edges|, i requires 0 <= i < |h.edges| => sqrt(h.sumw2[i + 1]))
  }

  /** The fit points of one year: y is every content past the underflow slot
      (so the overflow slot is the last point), dy the repaired square roots
      of the matching variances, x and dx the patched bin geometry. When the
      overflow slot is empty, the last point has y = 0 and its zero
      uncertainty is replaced by that of the point before it. */
  method FitPoints(h: Hist, sqrt: real -> real)
    returns (x: seq<real>, dx: seq<real>, y: seq<real>, dy: seq<real>)
    requires h.Valid() && |h.edges| >= 2
    ensures |x| == |h.edges| && |dx| == |x| && |y| == |x| && |dy| == |x|
    ensures y == h.sumw[1..]
    ensures dy == Repaired(RawUncertainties(h, sqrt))
    ensures x == Centres(PatchedRows(h.edges)) && dx == HalfWidths(PatchedRows(h.edges))
    ensures h.sumw[|h.sumw| - 1] == 0.0 ==> y[|y| - 1] == 0.0
    ensures h.sumw2[|h.sumw2| - 1] == 0.0 && sqrt(0.0) == 0.0 ==> dy[|dy| - 1] == dy[|dy| - 2]
  {
    y := h.sumw[1..];
    var n := |h.edges|;
    var dtf := new real[n](i requires 0 <= i < n => sqrt(h.sumw2[i + 1]));
    assert dtf[..] == RawUncertainties(h, sqrt);
    RepairZeroUncertainties(dtf);
    dy := dtf[..];
    x, dx := BinGeometry(h.edges);
  }

  /** The transfer factor of one year from templates to fit points: the
      histogram `make_templates` stores, read back by `fit_tf`. The first N
      points carry sr / cr; the extra last point, from the padded overflow
      slot, always has y = 0 and always borrows the uncertainty of the last
      real bin. */
  method TransferFactorPoints(edges: seq<real>, sr: seq<real>, cr: seq<real>,
                              srVar: seq<real>, crVar: seq<real>, sqrt: real -> real)
    returns (x: seq<real>, y: seq<real>, dy: seq<real>)
    requires |edges| >= 2
    requires |sr| == |edges| - 1 && |cr| == |sr| && |srVar| == |sr| && |crVar| == |sr|
    requires forall i :: 0 <= i < |cr| ==> cr[i] != 0.0
    requires sqrt(0.0) == 0.0
    ensures |x| == |edges| && |y| == |edges| && |dy| == |edges|
    ensures forall i :: 0 <= i < |cr| ==> y[i] == sr[i] / cr[i]
    ensures y[|y| - 1] == 0.0
    ensures dy[|dy| - 1] == dy[|dy| - 2]
    ensures forall i {:trigger x[i]} :: 0 <= i < |edges| - 1 ==> x[i] == 0.5 * (edges[i] + edges[i + 1])
  {
    var h := TransferFactor.TransferFactorHist(edges, sr, cr, srVar, crVar);
    var dx;
    x, dx, y, dy := FitPoints(h, sqrt);
    forall i | 0 <= i < |cr|
      ensures y[i] == sr[i] / cr[i]
    {
      assert y[i] == h.sumw[i + 1];
    }
    RegularCentres(edges);
  }
}
