/** `tf_prediction` for one region and one year: the fitted transfer factor
    times the data-minus-background estimate of the control region, the
    binning and fit-envelope systematics, and the entries written to the
    prediction file. The fitted curves are parameters. */
module Prediction {
  import opened Histograms
  import opened Bins
  import opened OutputFormat

  /** A fitted transfer-factor curve: the best-fit curve and the lower and
      upper curves of its uncertainty envelope, as functions of the recoil. */
  datatype Fit = Fit(best: real -> real, envelopeDown: real -> real, envelopeUp: real -> real)

  datatype Option<T> = None | Some(value: T)

  /** Why a year's prediction cannot be made: a binning with a single row
      has no previous row to patch the overflow row from, and without the
      `nom` fit there is no nominal curve. */
  datatype Failure = TooFewBins | MissingNominalFit

  datatype Result<T> = Success(value: T) | Error(failure: Failure)

  /** The predicted curves of one year, one value per patched row (underflow
      dropped, the overflow row last), before the recoil mask; with the
      edges every written histogram gets and the recoil mask over the rows. */
  datatype Curves = Curves(
    edges: seq<real>,
    mask: seq<bool>,
    nominal: seq<real>,
    nominalVar: seq<real>,
    binningUp: Option<seq<real>>,
    fitDown: seq<real>,
    fitUp: seq<real>)

  predicate WellFormed(cv: Curves) {
    && |cv.nominal| == |cv.mask|
    && |cv.nominalVar| == |cv.mask|
    && (cv.binningUp.Some? ==> |cv.binningUp.value| == |cv.mask|)
    && |cv.fitDown| == |cv.mask|
    && |cv.fitUp| == |cv.mask|
  }

  /** A curve evaluated at every bin centre, times the matching entry of c
      (numpy's elementwise product of `evaluate(x)` and c). */
  function Scaled(f: real -> real, x: seq<real>, c: seq<real>): (r: seq<real>)
    requires |x| == |c|
    ensures |r| == |x|
  {
    seq(|x|, i requires 0 <= i < |x| => f(x[i]) * c[i])
  }

  /** Entry i of the scaled curve is the curve at x_i times c_i. */
  lemma ScaledAt(f: real -> real, x: seq<real>, c: seq<real>)
    requires |x| == |c|
    ensures forall i {:trigger Scaled(f, x, c)[i]} :: 0 <= i < |x| ==> Scaled(f, x, c)[i] == f(x[i]) * c[i]
  {
  }

  /** The down variation mirrored from an up variation about the nominal:
      the two always average to the nominal. */
  function Reflected(nominal: seq<real>, varied: seq<real>): (r: seq<real>)
    requires |nominal| == |varied|
    ensures |r| == |nominal|
    ensures forall i :: 0 <= i < |r| ==> r[i] + varied[i] == 2.0 * nominal[i]
  {
    seq(|nominal|, i requires 0 <= i < |nominal| => 2.0 * nominal[i] - varied[i])
  }

  /** Mirroring twice gives back the up variation. */
  lemma ReflectedInvolution(nominal: seq<real>, varied: seq<real>)
    requires |nominal| == |varied|
    ensures Reflected(nominal, Reflected(nominal, varied)) == varied
  {
  }

  /** The two control-region histograms the prediction subtracts: data and
      the non-QCD backgrounds, valid and with the same slots. */
  predicate ControlInputs(crData: Hist, crNonqcd: Hist) {
    crData.Valid() && SameShape(crData, crNonqcd)
  }

  /** The QCD estimate in the control region past the underflow slot: data
      minus the non-QCD backgrounds, one value per row. */
  function ControlEstimate(crData: Hist, crNonqcd: Hist): (cr: seq<real>)
    requires ControlInputs(crData, crNonqcd)
    ensures |cr| == |crData.edges|
    ensures forall k :: 0 <= k < |cr| ==> cr[k] + crNonqcd.sumw[k + 1] == crData.sumw[k + 1]
  {
    HistDiff(crData, crNonqcd).sumw[1..]
  }

  /** Its variance: the two inputs' variances added, one value per row. */
  function ControlVariance(crData: Hist, crNonqcd: Hist): (v: seq<real>)
    requires ControlInputs(crData, crNonqcd)
    ensures |v| == |crData.edges|
    ensures forall k :: 0 <= k < |v| ==> v[k] - crNonqcd.sumw2[k + 1] == crData.sumw2[k + 1]
  {
    HistDiff(crData, crNonqcd).sumw2[1..]
  }

  /** The curves of one year. The estimate is data minus the non-QCD
      backgrounds in the control region, past the underflow slot; every curve
      is evaluated at the centres of the patched rows. The nominal variance
      is the estimate's variance times the best-fit value (not its square).
      The binning variation exists exactly when an `alt3` fit does. */
  function Predict(crData: Hist, crNonqcd: Hist, fits: map<string, Fit>): (r: Result<Curves>)
    requires ControlInputs(crData, crNonqcd)
    ensures r.Error? <==> |crData.edges| < 2 || "nom" !in fits
    ensures r.Error? ==> r.failure == (if |crData.edges| < 2 then TooFewBins else MissingNominalFit)
    ensures r.Success? ==> WellFormed(r.value) && |r.value.mask| == |crData.edges|
    ensures r.Success? ==> r.value.edges == OutputEdges(PatchedRows(crData.edges))
    ensures r.Success? ==> r.value.mask == RecoilMask(PatchedRows(crData.edges))
    ensures r.Success? ==> (r.value.binningUp.Some? <==> "alt3" in fits)
  {
    if |crData.edges| < 2 then Error(TooFewBins)
    else if "nom" !in fits then Error(MissingNominalFit)
    else
      var rows := PatchedRows(crData.edges);
      Success(CurvesAt(rows, Centres(rows), ControlEstimate(crData, crNonqcd),
                       ControlVariance(crData, crNonqcd), fits))
  }

  /** The curves of a year, from the patched rows, their centres `x`, the
      control-region estimate `cr` and its variance `crVar`. */
  function CurvesAt(rows: seq<Row>, x: seq<real>, cr: seq<real>, crVar: seq<real>,
                    fits: map<string, Fit>): Curves
    requires AllFinite(rows) && |x| == |cr| == |crVar| && "nom" in fits
  {
    var nom := fits["nom"];
    Curves(
      OutputEdges(rows),
      RecoilMask(rows),
      Scaled(nom.best, x, cr),
      Scaled(nom.best, x, crVar),
      if "alt3" in fits then Some(Scaled(fits["alt3"].best, x, cr)) else None,
      Scaled(nom.envelopeDown, x, cr),
      Scaled(nom.envelopeUp, x, cr))
  }

  /** The curves as products: the nominal is the best fit at every row's
      centre times the control-region estimate of the row, its variance the
      best fit times the estimate's variance, the fit variations the envelope
      curves and the binning variation the `alt3` best fit times the same
      estimate. */
  lemma PredictCurves(crData: Hist, crNonqcd: Hist, fits: map<string, Fit>)
    requires ControlInputs(crData, crNonqcd)
    requires |crData.edges| >= 2 && "nom" in fits
    ensures
      var cv := Predict(crData, crNonqcd, fits).value;
      var x := Centres(PatchedRows(crData.edges));
      var cr := ControlEstimate(crData, crNonqcd);
      var f := fits["nom"];
      && cv.nominal == Scaled(f.best, x, cr)
      && cv.nominalVar == Scaled(f.best, x, ControlVariance(crData, crNonqcd))
      && cv.fitDown == Scaled(f.envelopeDown, x, cr)
      && cv.fitUp == Scaled(f.envelopeUp, x, cr)
      && ("alt3" in fits ==> cv.binningUp == Some(Scaled(fits["alt3"].best, x, cr)))
  {
  }

  /** Scaling two curves, ordered at every centre, by a non-negative
      estimate keeps them ordered. */
  lemma ScaledOrdered(f: real -> real, g: real -> real, x: seq<real>, c: seq<real>)
    requires |x| == |c|
    requires forall k :: 0 <= k < |x| ==> f(x[k]) <= g(x[k]) && c[k] >= 0.0
    ensures forall k :: 0 <= k < |x| ==> Scaled(f, x, c)[k] <= Scaled(g, x, c)[k]
  {
    forall k | 0 <= k < |x|
      ensures Scaled(f, x, c)[k] <= Scaled(g, x, c)[k]
    {
      ScaledEntryOrdered(f, g, x, c, k);
    }
  }

  lemma ScaledEntryOrdered(f: real -> real, g: real -> real, x: seq<real>, c: seq<real>, k: nat)
    requires |x| == |c| && k < |x| && f(x[k]) <= g(x[k]) && c[k] >= 0.0
    ensures Scaled(f, x, c)[k] <= Scaled(g, x, c)[k]
  {
    ScaledAt(f, x, c);
    ScaledAt(g, x, c);
    ScaleMonotone(f(x[k]), g(x[k]), c[k]);
  }

  /** A non-negative curve times non-negative values is non-negative. */
  lemma ScaledNonNegative(f: real -> real, x: seq<real>, c: seq<real>)
    requires |x| == |c|
    requires forall k :: 0 <= k < |x| ==> f(x[k]) >= 0.0 && c[k] >= 0.0
    ensures NonNegative(Scaled(f, x, c))
  {
    forall k | 0 <= k < |x|
      ensures Scaled(f, x, c)[k] >= 0.0
    {
      ScaledEntryNonNegative(f, x, c, k);
    }
  }

  lemma ScaledEntryNonNegative(f: real -> real, x: seq<real>, c: seq<real>, k: nat)
    requires |x| == |c| && k < |x| && f(x[k]) >= 0.0 && c[k] >= 0.0
    ensures Scaled(f, x, c)[k] >= 0.0
  {
    ScaledAt(f, x, c);
    ProductNonNegative(f(x[k]), c[k]);
  }

  function Zeros(n: nat): (z: seq<real>)
    ensures |z| == n && forall i :: 0 <= i < n ==> z[i] == 0.0
  {
    seq(n, i => 0.0)
  }

  /** A written histogram: the given edges (those of the masked rows), and
      an empty underflow slot followed by the masked values and variances. */
  function Written(e: seq<real>, m: seq<bool>, v: seq<real>, w: seq<real>): Hist
    requires |v| == |m| && |w| == |m|
  {
    Hist(e, [0.0] + Select(v, m), [0.0] + Select(w, m))
  }

  /** A systematic template: written like the nominal, with no variances. */
  function Template(e: seq<real>, m: seq<bool>, v: seq<real>): Hist
    requires |v| == |m|
  {
    Written(e, m, v, Zeros(|m|))
  }

  /** The file after the nominal entry is written. */
  function StoreNominal(prior: map<string, Hist>, c: Channel, y: Year, cv: Curves): map<string, Hist>
    requires WellFormed(cv)
  {
    prior[Key(c, y, Nominal) := Written(cv.edges, cv.mask, cv.nominal, cv.nominalVar)]
  }

  /** The file after the binning variation, if there is one, is written. */
  function StoreBinning(prior: map<string, Hist>, c: Channel, y: Year, cv: Curves,
                        binningUp: Option<seq<real>>): map<string, Hist>
    requires WellFormed(cv)
    requires binningUp.Some? ==> |binningUp.value| == |cv.mask|
  {
    match binningUp
    case None => prior
    case Some(up) =>
      prior[Key(c, y, Variation(QcdBinning, Up)) := Template(cv.edges, cv.mask, up)]
           [Key(c, y, Variation(QcdBinning, Down)) := Template(cv.edges, cv.mask, Reflected(cv.nominal, up))]
  }

  /** The file after the fit-envelope variations are written. */
  function StoreFit(prior: map<string, Hist>, c: Channel, y: Year, cv: Curves): map<string, Hist>
    requires WellFormed(cv)
  {
    prior[Key(c, y, Variation(QcdFit, Up)) := Template(cv.edges, cv.mask, cv.fitUp)]
         [Key(c, y, Variation(QcdFit, Down)) := Template(cv.edges, cv.mask, cv.fitDown)]
  }

  /** Every write of one year, in the order `tf_prediction` makes them. */
  function Store(prior: map<string, Hist>, c: Channel, y: Year, cv: Curves): map<string, Hist>
    requires WellFormed(cv)
  {
    StoreFit(StoreBinning(StoreNominal(prior, c, y, cv), c, y, cv, cv.binningUp), c, y, cv)
  }

  /** The names written for one year: the nominal, the two fit-envelope
      variations and, with a binning variation, its two directions. */
  function KeysWritten(c: Channel, y: Year, binning: bool): set<string> {
    {Key(c, y, Nominal), Key(c, y, Variation(QcdFit, Up)), Key(c, y, Variation(QcdFit, Down))}
    + (if binning
       then {Key(c, y, Variation(QcdBinning, Up)), Key(c, y, Variation(QcdBinning, Down))}
       else {})
  }

  /** The names are pairwise distinct, so a year writes five entries with a
      binning variation and three without. */
  lemma KeysWrittenCount(c: Channel, y: Year, binning: bool)
    ensures |KeysWritten(c, y, binning)| == if binning then 5 else 3
  {
    DistinctKeys(c, y);
    var n := Key(c, y, Nominal);
    var fu := Key(c, y, Variation(QcdFit, Up));
    var fd := Key(c, y, Variation(QcdFit, Down));
    DistinctCount3(n, fu, fd);
    if binning {
      var bu := Key(c, y, Variation(QcdBinning, Up));
      var bd := Key(c, y, Variation(QcdBinning, Down));
      DistinctCount5(n, fu, fd, bu, bd);
    }
  }

  lemma DistinctCount3<T>(a: T, b: T, c: T)
    requires a != b && a != c && b != c
    ensures |{a, b, c}| == 3
  {
    assert {a, b, c} == {a, b} + {c};
  }

  lemma DistinctCount5<T>(a: T, b: T, c: T, d: T, e: T)
    requires a != b && a != c && a != d && a != e
    requires b != c && b != d && b != e
    requires c != d && c != e && d != e
    ensures |{a, b, c} + {d, e}| == 5
  {
    DistinctCount3(a, b, c);
    assert {a, b, c} + {d, e} == {a, b, c} + {d} + {e};
  }

  lemma KeysDiffer(c: Channel, y: Year, e1: Entry, e2: Entry)
    requires e1 != e2
    ensures Key(c, y, e1) != Key(c, y, e2)
  {
    if Key(c, y, e1) == Key(c, y, e2) {
      KeyInjective(c, y, e1, c, y, e2);
    }
  }

  lemma DistinctKeys(c: Channel, y: Year)
    ensures Key(c, y, Nominal) != Key(c, y, Variation(QcdFit, Up))
    ensures Key(c, y, Nominal) != Key(c, y, Variation(QcdFit, Down))
    ensures Key(c, y, Nominal) != Key(c, y, Variation(QcdBinning, Up))
    ensures Key(c, y, Nominal) != Key(c, y, Variation(QcdBinning, Down))
    ensures Key(c, y, Variation(QcdFit, Up)) != Key(c, y, Variation(QcdFit, Down))
    ensures Key(c, y, Variation(QcdFit, Up)) != Key(c, y, Variation(QcdBinning, Up))
    ensures Key(c, y, Variation(QcdFit, Up)) != Key(c, y, Variation(QcdBinning, Down))
    ensures Key(c, y, Variation(QcdFit, Down)) != Key(c, y, Variation(QcdBinning, Up))
    ensures Key(c, y, Variation(QcdFit, Down)) != Key(c, y, Variation(QcdBinning, Down))
    ensures Key(c, y, Variation(QcdBinning, Up)) != Key(c, y, Variation(QcdBinning, Down))
  {
    KeysDiffer(c, y, Nominal, Variation(QcdFit, Up));
    KeysDiffer(c, y, Nominal, Variation(QcdFit, Down));
    KeysDiffer(c, y, Nominal, Variation(QcdBinning, Up));
    KeysDiffer(c, y, Nominal, Variation(QcdBinning, Down));
    KeysDiffer(c, y, Variation(QcdFit, Up), Variation(QcdFit, Down));
    KeysDiffer(c, y, Variation(QcdFit, Up), Variation(QcdBinning, Up));
    KeysDiffer(c, y, Variation(QcdFit, Up), Variation(QcdBinning, Down));
    KeysDiffer(c, y, Variation(QcdFit, Down), Variation(QcdBinning, Up));
    KeysDiffer(c, y, Variation(QcdFit, Down), Variation(QcdBinning, Down));
    KeysDiffer(c, y, Variation(QcdBinning, Up), Variation(QcdBinning, Down));
  }

  /** What a year's writes leave in the file: exactly the names of
      KeysWritten are added, each holding its own histogram (no write
      overwrites another), and every other entry is kept. */
  lemma StoreEntries(prior: map<string, Hist>, c: Channel, y: Year, cv: Curves)
    requires WellFormed(cv)
    ensures Store(prior, c, y, cv).Keys == prior.Keys + KeysWritten(c, y, cv.binningUp.Some?)
    ensures Store(prior, c, y, cv)[Key(c, y, Nominal)] == Written(cv.edges, cv.mask, cv.nominal, cv.nominalVar)
    ensures Store(prior, c, y, cv)[Key(c, y, Variation(QcdFit, Up))] == Template(cv.edges, cv.mask, cv.fitUp)
    ensures Store(prior, c, y, cv)[Key(c, y, Variation(QcdFit, Down))] == Template(cv.edges, cv.mask, cv.fitDown)
    ensures cv.binningUp.Some? ==>
      && Store(prior, c, y, cv)[Key(c, y, Variation(QcdBinning, Up))]
         == Template(cv.edges, cv.mask, cv.binningUp.value)
      && Store(prior, c, y, cv)[Key(c, y, Variation(QcdBinning, Down))]
         == Template(cv.edges, cv.mask, Reflected(cv.nominal, cv.binningUp.value))
    ensures forall k :: k in prior && k !in KeysWritten(c, y, cv.binningUp.Some?) ==>
      Store(prior, c, y, cv)[k] == prior[k]
  {
    DistinctKeys(c, y);
  }

  /** The two years share one file; a year's writes never touch the entries
      of the other year. */
  lemma YearsDoNotOverwrite(prior: map<string, Hist>, c: Channel, y: Year, cv: Curves,
                            c2: Channel, y2: Year, e: Entry)
    requires WellFormed(cv) && y2 != y && Key(c2, y2, e) in prior
    ensures Key(c2, y2, e) in Store(prior, c, y, cv)
    ensures Store(prior, c, y, cv)[Key(c2, y2, e)] == prior[Key(c2, y2, e)]
  {
    forall e1: Entry
      ensures Key(c2, y2, e) != Key(c, y, e1)
    {
      if Key(c2, y2, e) == Key(c, y, e1) {
        KeyInjective(c2, y2, e, c, y, e1);
      }
    }
    assert Key(c2, y2, e) !in KeysWritten(c, y, cv.binningUp.Some?);
    StoreEntries(prior, c, y, cv);
  }

  /** The binning templates are written exactly when an `alt3` fit exists. */
  lemma BinningOnlyFromAlt3(prior: map<string, Hist>, crData: Hist, crNonqcd: Hist,
                            fits: map<string, Fit>, c: Channel, y: Year, d: Direction)
    requires ControlInputs(crData, crNonqcd)
    requires |crData.edges| >= 2 && "nom" in fits
    requires Key(c, y, Variation(QcdBinning, d)) !in prior
    ensures Key(c, y, Variation(QcdBinning, d)) in Store(prior, c, y, Predict(crData, crNonqcd, fits).value)
        <==> "alt3" in fits
  {
    BinningKeyWritten(prior, c, y, Predict(crData, crNonqcd, fits).value, d);
  }

  /** A binning name is in the file after a year's writes exactly when it
      was before or the year has a binning variation. */
  lemma BinningKeyWritten(prior: map<string, Hist>, c: Channel, y: Year, cv: Curves, d: Direction)
    requires WellFormed(cv)
    ensures Key(c, y, Variation(QcdBinning, d)) in Store(prior, c, y, cv)
        <==> Key(c, y, Variation(QcdBinning, d)) in prior || cv.binningUp.Some?
  {
    StoreEntries(prior, c, y, cv);
    DistinctKeys(c, y);
  }

  /** All written histograms of a year share the edges and the length. */
  lemma WrittenShapes(e: seq<real>, m: seq<bool>, v: seq<real>, w: seq<real>, v2: seq<real>)
    requires |v| == |m| && |w| == |m| && |v2| == |m|
    ensures Written(e, m, v, w).edges == e && Template(e, m, v2).edges == e
    ensures |Written(e, m, v, w).sumw| == |Written(e, m, v, w).sumw2|
    ensures |Template(e, m, v2).sumw| == |Written(e, m, v, w).sumw|
    ensures |Template(e, m, v2).sumw2| == |Written(e, m, v, w).sumw|
  {
    MaskedPairwise(v, w, m, (p: real, q: real) => true);
    MaskedPairwise(v2, v, m, (p: real, q: real) => true);
    MaskedPairwise(Zeros(|m|), v, m, (p: real, q: real) => true);
  }

  /** Pointwise, the binning templates average to the nominal (Up + Down =
      2 nominal in every slot) and carry no variance; all three share edges
      and length. */
  lemma BinningReflection(cv: Curves)
    requires WellFormed(cv) && cv.binningUp.Some?
    ensures
      var n := Written(cv.edges, cv.mask, cv.nominal, cv.nominalVar);
      var u := Template(cv.edges, cv.mask, cv.binningUp.value);
      var d := Template(cv.edges, cv.mask, Reflected(cv.nominal, cv.binningUp.value));
      && u.edges == n.edges && d.edges == n.edges
      && |u.sumw| == |n.sumw| && |d.sumw| == |n.sumw|
      && (forall i :: 0 <= i < |n.sumw| ==> u.sumw[i] + d.sumw[i] == 2.0 * n.sumw[i])
      && (forall i :: 0 <= i < |u.sumw2| ==> u.sumw2[i] == 0.0)
      && (forall i :: 0 <= i < |d.sumw2| ==> d.sumw2[i] == 0.0)
  {
    var m := cv.mask;
    var up := cv.binningUp.value;
    var down := Reflected(cv.nominal, up);
    var zs := Select(Zeros(|cv.mask|), m);
    var sn, su, sd := Select(cv.nominal, m), Select(up, m), Select(down, m);
    MaskedReflection(cv.nominal, up, m);
    MaskedZeros(|cv.mask|, m);
    assert Written(cv.edges, cv.mask, cv.nominal, cv.nominalVar).sumw == [0.0] + sn;
    assert Template(cv.edges, cv.mask, up) == Hist(cv.edges, [0.0] + su, [0.0] + zs);
    assert Template(cv.edges, cv.mask, down) == Hist(cv.edges, [0.0] + sd, [0.0] + zs);
    PrefixedReflection(sn, su, sd);
    PrefixedZeros(zs);
  }

  lemma PrefixedReflection(n: seq<real>, u: seq<real>, d: seq<real>)
    requires |u| == |n| && |d| == |n|
    requires forall i :: 0 <= i < |n| ==> u[i] + d[i] == 2.0 * n[i]
    ensures forall i :: 0 <= i < |n| + 1 ==> ([0.0] + u)[i] + ([0.0] + d)[i] == 2.0 * ([0.0] + n)[i]
  {
    forall i | 1 <= i < |n| + 1
      ensures ([0.0] + u)[i] + ([0.0] + d)[i] == 2.0 * ([0.0] + n)[i]
    {
      assert ([0.0] + u)[i] == u[i - 1] && ([0.0] + d)[i] == d[i - 1] && ([0.0] + n)[i] == n[i - 1];
    }
  }

  lemma PrefixedZeros(z: seq<real>)
    requires forall i :: 0 <= i < |z| ==> z[i] == 0.0
    ensures forall i :: 0 <= i < |z| + 1 ==> ([0.0] + z)[i] == 0.0
  {
    forall i | 1 <= i < |z| + 1
      ensures ([0.0] + z)[i] == 0.0
    {
      assert ([0.0] + z)[i] == z[i - 1];
    }
  }

  /** Masking commutes with the reflection. */
  lemma {:induction false} MaskedReflection(nominal: seq<real>, up: seq<real>, m: seq<bool>)
    requires |nominal| == |m| && |up| == |m|
    ensures |Select(up, m)| == |Select(nominal, m)|
    ensures Select(Reflected(nominal, up), m) == Reflected(Select(nominal, m), Select(up, m))
  {
    SelectSameLength(up, nominal, m);
    if m != [] {
      MaskedReflection(nominal[1..], up[1..], m[1..]);
      ReflectedSplits(nominal, up);
      var tn, tu := Select(nominal[1..], m[1..]), Select(up[1..], m[1..]);
      if m[0] {
        assert Select(nominal, m) == [nominal[0]] + tn;
        assert Select(up, m) == [up[0]] + tu;
        ReflectedSplits([nominal[0]] + tn, [up[0]] + tu);
        assert ([nominal[0]] + tn)[1..] == tn && ([up[0]] + tu)[1..] == tu;
      } else {
        assert Select(nominal, m) == tn && Select(up, m) == tu;
      }
    }
  }

  /** A non-empty reflection is its first entry followed by the reflection of
      the tails. */
  lemma ReflectedSplits(nominal: seq<real>, up: seq<real>)
    requires |nominal| == |up| && |up| > 0
    ensures Reflected(nominal, up) == [2.0 * nominal[0] - up[0]] + Reflected(nominal[1..], up[1..])
  {
    var r := Reflected(nominal, up);
    assert r[1..] == Reflected(nominal[1..], up[1..]);
    assert r == [r[0]] + r[1..];
  }

  /** Masked zeros are zeros. */
  lemma MaskedZeros(n: nat, m: seq<bool>)
    requires |m| == n
    ensures forall i :: 0 <= i < |Select(Zeros(n), m)| ==> Select(Zeros(n), m)[i] == 0.0
  {
    MaskedPairwise(Zeros(n), Zeros(n), m, (p: real, q: real) => p == 0.0);
  }

  /** Masking keeps a pointwise order. */
  lemma MaskedOrdered(a: seq<real>, b: seq<real>, m: seq<bool>)
    requires |a| == |m| && |b| == |m|
    requires forall k :: 0 <= k < |m| ==> a[k] <= b[k]
    ensures |Select(a, m)| == |Select(b, m)|
    ensures forall i :: 0 <= i < |Select(a, m)| ==> Select(a, m)[i] <= Select(b, m)[i]
  {
    MaskedPairwise(a, b, m, (p: real, q: real) => p <= q);
  }

  /** Masking keeps non-negative values non-negative. */
  lemma MaskedNonNegative(a: seq<real>, m: seq<bool>)
    requires |a| == |m| && NonNegative(a)
    ensures NonNegative(Select(a, m))
  {
    MaskedPairwise(a, a, m, (p: real, q: real) => p >= 0.0);
  }

  /** The fit templates bracket the nominal: the three written histograms
      have the same slots, and in every slot the Down content is at most the
      nominal content, which is at most the Up content. */
  predicate WrittenBracketed(cv: Curves)
    requires WellFormed(cv)
  {
    var n := Written(cv.edges, cv.mask, cv.nominal, cv.nominalVar);
    var lo := Template(cv.edges, cv.mask, cv.fitDown);
    var hi := Template(cv.edges, cv.mask, cv.fitUp);
    |lo.sumw| == |n.sumw| && |hi.sumw| == |n.sumw|
    && forall i :: 0 <= i < |n.sumw| ==> lo.sumw[i] <= n.sumw[i] <= hi.sumw[i]
  }

  /** When the envelope brackets the best-fit curve at every bin centre and
      the estimate is non-negative, the fit templates bracket the nominal in
      every written slot. */
  lemma FitEnvelopeBrackets(crData: Hist, crNonqcd: Hist, fits: map<string, Fit>)
    requires ControlInputs(crData, crNonqcd)
    requires |crData.edges| >= 2 && "nom" in fits
    requires forall i :: 0 <= i < |crData.edges| ==>
      var x := Centres(PatchedRows(crData.edges))[i];
      fits["nom"].envelopeDown(x) <= fits["nom"].best(x) <= fits["nom"].envelopeUp(x)
    requires forall i :: 1 <= i < |crData.sumw| ==> crData.sumw[i] >= crNonqcd.sumw[i]
    ensures WrittenBracketed(Predict(crData, crNonqcd, fits).value)
  {
    PredictCurves(crData, crNonqcd, fits);
    ControlEstimateNonNegative(crData, crNonqcd);
    WrittenEnvelopeBrackets(Predict(crData, crNonqcd, fits).value, fits["nom"],
                            Centres(PatchedRows(crData.edges)), ControlEstimate(crData, crNonqcd));
  }

  /** The bracket for curves built from one fit at centres x and a
      non-negative estimate cr. */
  lemma WrittenEnvelopeBrackets(cv: Curves, f: Fit, x: seq<real>, cr: seq<real>)
    requires WellFormed(cv) && |x| == |cv.mask| && |cr| == |cv.mask| && NonNegative(cr)
    requires cv.nominal == Scaled(f.best, x, cr)
    requires cv.fitDown == Scaled(f.envelopeDown, x, cr) && cv.fitUp == Scaled(f.envelopeUp, x, cr)
    requires forall k :: 0 <= k < |x| ==> f.envelopeDown(x[k]) <= f.best(x[k]) <= f.envelopeUp(x[k])
    ensures WrittenBracketed(cv)
  {
    CurvesBracketed(f, x, cr);
    MaskedBracket(cv);
  }

  /** The same bracket row by row, before the mask: the envelope curves
      times a non-negative estimate bracket the best fit times it. */
  lemma CurvesBracketed(f: Fit, x: seq<real>, cr: seq<real>)
    requires |x| == |cr| && NonNegative(cr)
    requires forall k :: 0 <= k < |x| ==> f.envelopeDown(x[k]) <= f.best(x[k]) <= f.envelopeUp(x[k])
    ensures forall k :: 0 <= k < |x| ==>
      Scaled(f.envelopeDown, x, cr)[k] <= Scaled(f.best, x, cr)[k] <= Scaled(f.envelopeUp, x, cr)[k]
  {
    ScaledOrdered(f.envelopeDown, f.best, x, cr);
    ScaledOrdered(f.best, f.envelopeUp, x, cr);
  }

  /** The control-region estimate is non-negative wherever data is at least
      the non-QCD backgrounds. */
  lemma ControlEstimateNonNegative(crData: Hist, crNonqcd: Hist)
    requires ControlInputs(crData, crNonqcd)
    requires forall i :: 1 <= i < |crData.sumw| ==> crData.sumw[i] >= crNonqcd.sumw[i]
    ensures NonNegative(ControlEstimate(crData, crNonqcd))
  {
    var cr := ControlEstimate(crData, crNonqcd);
    forall k | 0 <= k < |cr|
      ensures cr[k] >= 0.0
    {
      assert cr[k] + crNonqcd.sumw[k + 1] == crData.sumw[k + 1];
    }
  }

  /** Masking keeps a row-by-row bracket slot by slot. */
  lemma MaskedBracket(cv: Curves)
    requires WellFormed(cv)
    requires forall k :: 0 <= k < |cv.mask| ==> cv.fitDown[k] <= cv.nominal[k] <= cv.fitUp[k]
    ensures WrittenBracketed(cv)
  {
    var m := cv.mask;
    var sn, sl, sh := Select(cv.nominal, m), Select(cv.fitDown, m), Select(cv.fitUp, m);
    MaskedOrdered(cv.fitDown, cv.nominal, m);
    MaskedOrdered(cv.nominal, cv.fitUp, m);
    assert Written(cv.edges, cv.mask, cv.nominal, cv.nominalVar).sumw == [0.0] + sn;
    assert Template(cv.edges, cv.mask, cv.fitDown).sumw == [0.0] + sl;
    assert Template(cv.edges, cv.mask, cv.fitUp).sumw == [0.0] + sh;
    PrefixedOrdered(sl, sn);
    PrefixedOrdered(sn, sh);
  }

  lemma PrefixedOrdered(a: seq<real>, b: seq<real>)
    requires |a| == |b| && forall i :: 0 <= i < |a| ==> a[i] <= b[i]
    ensures forall i :: 0 <= i < |a| + 1 ==> ([0.0] + a)[i] <= ([0.0] + b)[i]
  {
    forall i | 1 <= i < |a| + 1
      ensures ([0.0] + a)[i] <= ([0.0] + b)[i]
    {
      assert ([0.0] + a)[i] == a[i - 1] && ([0.0] + b)[i] == b[i - 1];
    }
  }

  lemma ProductNonNegative(a: real, b: real)
    requires a >= 0.0 && b >= 0.0
    ensures a * b >= 0.0
  {
  }

  lemma ScaleMonotone(a: real, b: real, c: real)
    requires a <= b && c >= 0.0
    ensures a * c <= b * c
  {
    assert b * c - a * c == (b - a) * c;
  }

  /** The nominal variance, scaled linearly by the best-fit value, is
      non-negative wherever the best fit is and the inputs' variances are. */
  lemma NominalVarianceNonNegative(crData: Hist, crNonqcd: Hist, fits: map<string, Fit>)
    requires ControlInputs(crData, crNonqcd)
    requires |crData.edges| >= 2 && "nom" in fits
    requires NonNegative(crData.sumw2) && NonNegative(crNonqcd.sumw2)
    requires forall i :: 0 <= i < |crData.edges| ==>
      fits["nom"].best(Centres(PatchedRows(crData.edges))[i]) >= 0.0
    ensures
      var cv := Predict(crData, crNonqcd, fits).value;
      NonNegative(Written(cv.edges, cv.mask, cv.nominal, cv.nominalVar).sumw2)
  {
    CurvesVarianceNonNegative(crData, crNonqcd, fits);
    WrittenVarianceNonNegative(Predict(crData, crNonqcd, fits).value);
  }

  /** Writing keeps a non-negative variance non-negative. */
  lemma WrittenVarianceNonNegative(cv: Curves)
    requires WellFormed(cv) && NonNegative(cv.nominalVar)
    ensures NonNegative(Written(cv.edges, cv.mask, cv.nominal, cv.nominalVar).sumw2)
  {
    MaskedNonNegative(cv.nominalVar, cv.mask);
    assert Written(cv.edges, cv.mask, cv.nominal, cv.nominalVar).sumw2 == [0.0] + Select(cv.nominalVar, cv.mask);
  }

  /** Before masking: every row's nominal variance is non-negative. */
  lemma CurvesVarianceNonNegative(crData: Hist, crNonqcd: Hist, fits: map<string, Fit>)
    requires ControlInputs(crData, crNonqcd)
    requires |crData.edges| >= 2 && "nom" in fits
    requires NonNegative(crData.sumw2) && NonNegative(crNonqcd.sumw2)
    requires forall i :: 0 <= i < |crData.edges| ==>
      fits["nom"].best(Centres(PatchedRows(crData.edges))[i]) >= 0.0
    ensures NonNegative(Predict(crData, crNonqcd, fits).value.nominalVar)
  {
    PredictCurves(crData, crNonqcd, fits);
    var x := Centres(PatchedRows(crData.edges));
    var v := ControlVariance(crData, crNonqcd);
    ControlVarianceNonNegative(crData, crNonqcd);
    ScaledNonNegative(fits["nom"].best, x, v);
  }

  /** The control-region variance, data plus non-QCD, is non-negative when
      both inputs' variances are. */
  lemma ControlVarianceNonNegative(crData: Hist, crNonqcd: Hist)
    requires ControlInputs(crData, crNonqcd)
    requires NonNegative(crData.sumw2) && NonNegative(crNonqcd.sumw2)
    ensures NonNegative(ControlVariance(crData, crNonqcd))
  {
    var v := ControlVariance(crData, crNonqcd);
    forall k | 0 <= k < |v|
      ensures v[k] >= 0.0
    {
      assert v[k] - crNonqcd.sumw2[k + 1] == crData.sumw2[k + 1];
    }
  }

  /** With strictly increasing edges of which the first j lie below the cut
      and at least two at or above it, the nominal entry is a valid histogram
      over the edges from e_j on: slot 0 is empty, and the slots after it
      hold, for rows j onwards, the best fit at the row's centre times the
      control-region estimate of that row, with variance best fit times the
      estimate's variance. */
  lemma NominalAtMaskedRows(crData: Hist, crNonqcd: Hist, fits: map<string, Fit>, j: nat)
    requires ControlInputs(crData, crNonqcd) && "nom" in fits
    requires StrictlyIncreasing(crData.edges) && j + 2 <= |crData.edges|
    requires forall i :: 0 <= i < |crData.edges| ==> (crData.edges[i] >= MIN_RECOIL <==> i >= j)
    ensures
      var cv := Predict(crData, crNonqcd, fits).value;
      var h := Written(cv.edges, cv.mask, cv.nominal, cv.nominalVar);
      var x := Centres(PatchedRows(crData.edges));
      var cr := ControlEstimate(crData, crNonqcd);
      var crVar := ControlVariance(crData, crNonqcd);
      var best := fits["nom"].best;
      && h.Valid()
      && h.edges == crData.edges[j..]
      && h.sumw == [0.0] + Scaled(best, x, cr)[j..]
      && h.sumw2 == [0.0] + Scaled(best, x, crVar)[j..]
  {
    var cv := Predict(crData, crNonqcd, fits).value;
    WrittenAboveCut(crData.edges, j, cv.nominal, cv.nominalVar);
  }

  /** Under the same conditions on the edges, a written histogram is the
      suffix of its curves from row j on, behind an empty underflow slot. */
  lemma WrittenAboveCut(edges: seq<real>, j: nat, v: seq<real>, w: seq<real>)
    requires StrictlyIncreasing(edges) && j + 2 <= |edges|
    requires forall i :: 0 <= i < |edges| ==> (edges[i] >= MIN_RECOIL <==> i >= j)
    requires |v| == |edges| && |w| == |edges|
    ensures Written(OutputEdges(PatchedRows(edges)), RecoilMask(PatchedRows(edges)), v, w)
         == Hist(edges[j..], [0.0] + v[j..], [0.0] + w[j..])
  {
    var m := RecoilMask(PatchedRows(edges));
    OutputEdgesAreMaskedLowerEdges(edges, j);
    MaskIsSuffix(edges, j);
    SelectSuffix(v, m, j);
    SelectSuffix(w, m, j);
  }

  /** The prediction file: named histograms, each assignment replacing any
      entry of the same name. */
  class PredictionFile {
    var entries: map<string, Hist>

    constructor ()
      ensures entries == map[]
    {
      entries := map[];
    }

    method Put(key: string, h: Hist)
      modifies this
      ensures entries == old(entries)[key := h]
    {
      entries := entries[key := h];
    }
  }

  /** One year of `tf_prediction`: computes the curves at the centres of
      the patched rows (the geometry `Bins.BinGeometry` computes in place),
      writes the nominal, walks the fits writing the binning templates for
      `alt3`, then writes the fit-envelope templates. A binning with a single
      row, or a missing `nom` fit, stops the year before anything is
      written. */
  method WritePrediction(fout: PredictionFile, region: string, year: Year,
                         crData: Hist, crNonqcd: Hist, fits: map<string, Fit>)
    returns (r: Result<Curves>)
    requires ControlInputs(crData, crNonqcd)
    modifies fout
    ensures r == Predict(crData, crNonqcd, fits)
    ensures r.Error? ==> fout.entries == old(fout.entries)
    ensures r.Success? ==> fout.entries == Store(old(fout.entries), ChannelOf(region), year, r.value)
  {
    if |crData.edges| < 2 {
      return Error(TooFewBins);
    }
    if "nom" !in fits {
      return Error(MissingNominalFit);
    }
    var rows := PatchedRows(crData.edges);
    var x := Centres(rows);
    var cr := ControlEstimate(crData, crNonqcd);
    var cv := CurvesAt(rows, x, cr, ControlVariance(crData, crNonqcd), fits);
    r := Success(cv);
    var channel := ChannelOf(region);
    fout.Put(Key(channel, year, Nominal), Written(cv.edges, cv.mask, cv.nominal, cv.nominalVar));
    WriteBinning(fout, channel, year, cv, fits, x, cr);
    ghost var afterBinning := fout.entries;
    fout.Put(Key(channel, year, Variation(QcdFit, Up)), Template(cv.edges, cv.mask, cv.fitUp));
    fout.Put(Key(channel, year, Variation(QcdFit, Down)), Template(cv.edges, cv.mask, cv.fitDown));
    assert fout.entries == StoreFit(afterBinning, channel, year, cv);
  }

  /** The loop over the fits: only the `alt3` fit writes, its best fit times
      the estimate as the up template and the reflection about the nominal
      as the down template. */
  method WriteBinning(fout: PredictionFile, channel: Channel, year: Year, cv: Curves,
                      fits: map<string, Fit>, x: seq<real>, cr: seq<real>)
    requires WellFormed(cv) && |x| == |cv.mask| && |cr| == |cv.mask|
    requires cv.binningUp == if "alt3" in fits then Some(Scaled(fits["alt3"].best, x, cr)) else None
    modifies fout
    ensures fout.entries == StoreBinning(old(fout.entries), channel, year, cv, cv.binningUp)
  {
    var binningUp: Option<seq<real>> := None;
    var pending := fits.Keys;
    while pending != {}
      invariant pending <= fits.Keys
      invariant binningUp == (if "alt3" in fits && "alt3" !in pending then cv.binningUp else None)
      invariant fout.entries == StoreBinning(old(fout.entries), channel, year, cv, binningUp)
      decreases |pending|
    {
      var tag :| tag in pending;
      pending := pending - {tag};
      if tag == "alt3" {
        var varied := Scaled(fits[tag].best, x, cr);
        fout.Put(Key(channel, year, Variation(QcdBinning, Up)), Template(cv.edges, cv.mask, varied));
        fout.Put(Key(channel, year, Variation(QcdBinning, Down)),
                 Template(cv.edges, cv.mask, Reflected(cv.nominal, varied)));
        binningUp := Some(varied);
      }
    }
  }
}
