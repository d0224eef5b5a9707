# Data-driven QCD estimate — a verified model of its array arithmetic

`data_driven_qcd.py` estimates the QCD multijet background of the monojet and
mono-V signal regions from data. It has three stages:

1. `make_templates` writes, for every year, a transfer factor (TF). The TF is
   the ratio of the QCD yield in the signal region to that in the control
   region, bin by bin, with its propagated uncertainty.
2. `fit_tf` reads the TF back as fit points. It repairs zero uncertainties
   by looking back one bin and patches the open overflow bin to a finite
   width. The points go to a curve fit.
3. `tf_prediction` multiplies the fitted TF by the control-region QCD
   estimate. The estimate is data minus the non-QCD backgrounds (`histdiff`).
   The stage derives a binning systematic from the `alt3` fit and a fit
   systematic from the fit envelope. It keeps the bins at recoil ≥ 250 and
   writes every histogram under a name built from the channel, the year and
   the variation.

This project models that arithmetic in Dafny and proves what each step
promises. Histograms are edges plus contents (`sumw`) and variances
(`sumw2`), with ROOT's underflow and overflow slots.

Modules and files:

- `histograms.dfy` — `Histograms`: histograms and `histdiff`.
- `transfer_factor.dfy` — `TransferFactor`: `ratio_unc` (as a variance) and
  the stored TF histogram.
- `model_functions.dfy` — `ModelFunctions`: `exponential` and
  `exponential2`, with the in-place clamp of negative values.
- `repair.dfy` — `Repair`: the in-place zero-uncertainty repair loop,
  including Python's wrap-around at index −1.
- `bins.dfy` — `Bins`: the rows of bin edges, the in-place overflow patch,
  and the bin centres and half-widths.
- `fit_inputs.dfy` — `FitInputs`: the (x, dx, y, dy) fit points of `fit_tf`.
- `output_format.dfy` — `OutputFormat`: the recoil mask, boolean-mask
  selection, `np.unique` of the masked rows, and the entry names.
- `prediction.dfy` — `Prediction`: the predicted curves, the file as a class
  with a `Put` per assignment, and the loop that writes one year.

The fitted curves (`evaluate(x, "best")`, `envelope(x)`), `exp` and `sqrt`
are parameters of the model. Uncertainties are carried as variances, which is
what the files store.

Notes on what the code does:

- The fit gets all N+1 points, including the zero overflow slot that
  `make_templates` pads in. That slot's zero uncertainty is always repaired
  (`FitInputs.TransferFactorPoints`).
- The nominal variance is the control-region variance times the best-fit
  value, not times its square. The fit envelope feeds only the qcdfit
  templates (`Prediction.PredictCurves`).
- Only the binning and fit pairs are written; the ±25 % closure band is only
  drawn (`Prediction.KeysWrittenCount`).
- Histograms keep ROOT's flow slots, N+2 values for N+1 edges; the code's
  indexing (`[1:]`, `np.r_[0, …]`) depends on them.

In `tf_prediction`, the code raises an exception for a binning with no
regular bin (`bins[-2]`, line 433) or a missing `nom` fit (line 439).
`Prediction.Predict` returns a `Failure` for each, before anything is
written. `fit_tf` and `tf_closure` raise the same exception at lines 123 and
304; there the model requires at least two edges instead (see "## Left out").

## Model

| member | source | states |
|---|---|---|
| Histograms.HistDiff | data_driven_qcd.py:263-266 | the estimate has the inputs' slots; in every slot, content plus the subtracted content is the first content, and variance minus the second variance is the first variance |
| Histograms.HistDiffVariance | data_driven_qcd.py:263-266 | the estimate's variance is at least each input's, so it is non-negative when both are |
| TransferFactor.RatioVariance | data_driven_qcd.py:38-42 | the squared `ratio_unc` is non-negative for non-negative input variances |
| TransferFactor.RatioVarianceScaled | data_driven_qcd.py:38-42 | multiplied by den², the variance is var(num) + (num/den)²·var(den): relative variances add |
| TransferFactor.RatioExample | data_driven_qcd.py:38-42 | 100 ± 10 over 50 ± 5 gives 2 with variance 0.2² + 0.2² |
| TransferFactor.Ratios | data_driven_qcd.py:91 | the TF has one entry per bin, equal to sr/cr |
| TransferFactor.RatiosInvert | data_driven_qcd.py:91 | TF times the control-region yield gives back the signal-region yield in every bin |
| TransferFactor.RatioVariances | data_driven_qcd.py:92 | one variance per bin, each the squared `ratio_unc` of its bin, all non-negative when the inputs are |
| TransferFactor.Padded | data_driven_qcd.py:99-100 | `np.r_[0, s, 0]`: two slots longer, zero at both ends, s in between, non-negative when s is |
| TransferFactor.TransferFactorHist | data_driven_qcd.py:97-101 | the stored histogram is valid (N+2 slots for N+1 edges) over the given edges, has zero flow slots and sr/cr in regular slot i, and has non-negative variances for non-negative inputs |
| TransferFactor.TransferFactorVariances | data_driven_qcd.py:92-100 | regular slot i of the stored variances is the squared `ratio_unc` of bin i |
| ModelFunctions.ClampNegatives | data_driven_qcd.py:26 | in place: every negative entry becomes 0 and every other entry is kept |
| ModelFunctions.Exponential | data_driven_qcd.py:24-27 | one value per x, never negative, equal to a·exp(−bx)+c where that is ≥ 0 and 0 elsewhere |
| ModelFunctions.Exponential2 | data_driven_qcd.py:29-32 | the same for a·exp(−bx−cx²)+d |
| Repair.Repaired | data_driven_qcd.py:118-120 | the reference semantics of the loop: one value per entry, slot i holding `RepairedAt`; its lemmas state what a slot holds (kept, looked back, wrapped, nearest preceding non-zero) |
| Repair.RepairZeroUncertainties | data_driven_qcd.py:118-120 | the in-place loop leaves exactly `Repaired` of the old array |
| Repair.RepairKeepsNonZero | data_driven_qcd.py:118-120 | non-zero entries are untouched |
| Repair.RepairLooksBack | data_driven_qcd.py:118-120 | a zero at i > 0 takes the already repaired entry i−1, so runs of zeros fill forward |
| Repair.RepairWrapsAtStart | data_driven_qcd.py:118-120 | a zero at i = 0 takes the last entry (`dtf[-1]`) |
| Repair.RepairTakesNearestPreceding | data_driven_qcd.py:118-120 | reference characterisation: a repaired slot holds the nearest non-zero entry at or before it |
| Repair.RepairLeadingZeros | data_driven_qcd.py:118-120 | when every entry up to i is zero, slot i holds the last entry |
| Repair.RepairRemovesZeros | data_driven_qcd.py:118-120 | no zero survives if and only if the first or the last entry is non-zero |
| Repair.RepairExample | data_driven_qcd.py:118-120 | [0.1, 0, 0.3] becomes [0.1, 0.1, 0.3] |
| Bins.RowsAboveUnderflow | data_driven_qcd.py:122 | `allbins[1:]`: one row per edge, the first starting at the first edge and the last the open overflow row (e_N, +infinity) |
| Bins.Patched | data_driven_qcd.py:123 | every row but the last is unchanged; the last keeps its lower edge and gets a finite upper edge one previous-row width above it |
| Bins.PatchOverflowRow | data_driven_qcd.py:123 | the in-place assignment leaves exactly `Patched` of the old rows |
| Bins.PatchedRows | data_driven_qcd.py:122-123 | one finite row per edge; the last row is as wide as the last regular bin |
| Bins.PatchedRowsSpan | data_driven_qcd.py:122-123 | row i starts at edge i, and every regular row ends at the next edge |
| Bins.Centres | data_driven_qcd.py:125 | one centre per row; `RegularCentres` and `GeometrySpansBins` state that it is the midpoint of the row |
| Bins.HalfWidths | data_driven_qcd.py:124 | one half-width per row; `GeometrySpansBins` states that centre ∓ half-width are the row's edges |
| Bins.BinGeometry | data_driven_qcd.py:122-125 | builds the rows in an array, patches them in place, and returns one centre and one half-width per row, those of the patched rows |
| Bins.RegularCentres | data_driven_qcd.py:125 | the centre of each regular bin is the midpoint of its two edges |
| Bins.GeometrySpansBins | data_driven_qcd.py:124-125 | x − dx and x + dx are the bin's edges; the last point starts at the last edge with the last regular bin's half-width |
| FitInputs.RawUncertainties | data_driven_qcd.py:116 | `np.sqrt(allvariances[1:])`: one uncertainty per slot past the underflow, the square root of that slot's variance |
| FitInputs.FitPoints | data_driven_qcd.py:113-125 | y is every content past the underflow slot; dy is the repaired square roots of the matching variances; x and dx are the patched geometry; a zero overflow content gives y = 0, and a zero overflow variance gives the previous point's uncertainty |
| FitInputs.TransferFactorPoints | data_driven_qcd.py:113-125 | read back from the stored TF, the first N points are sr/cr at the bin midpoints; the extra last point has y = 0 and borrows the last real bin's uncertainty |
| OutputFormat.ChannelOf | data_driven_qcd.py:444 | monojet exactly when `_j` occurs in the region name; `MonojetRegion` and `MonovRegions` fix the channel of the three regions |
| OutputFormat.RecoilMask | data_driven_qcd.py:442 | one flag per row, set exactly when the row's lower edge is ≥ 250 |
| OutputFormat.Select | data_driven_qcd.py:447-448 | `v[mask]`: never longer than v; `MaskedPairwise`, `SelectSuffix` and `SelectSameLength` state which entries it keeps |
| OutputFormat.MaskedPairwise | data_driven_qcd.py:447-448 | two sequences indexed by one mask stay aligned: an entry-by-entry relation survives the mask |
| OutputFormat.SelectSuffix | data_driven_qcd.py:447 | a mask that is set exactly from index j on selects the suffix from j |
| OutputFormat.MaskIsSuffix | data_driven_qcd.py:442 | with edges below 250 exactly before index j, the mask is set exactly from row j on |
| OutputFormat.Insert | data_driven_qcd.py:446 | inserting into a strictly increasing sequence keeps it strictly increasing, with the old elements plus the new one |
| OutputFormat.Unique | data_driven_qcd.py:446 | `np.unique`: strictly increasing, with exactly the input's elements |
| OutputFormat.OutputEdges | data_driven_qcd.py:446 | the written edges are strictly increasing |
| OutputFormat.OutputEdgesAreMaskedLowerEdges | data_driven_qcd.py:442-446 | with increasing edges and at least two masked rows, the written edges are the lower edges of the masked rows, edges[j..]; the last masked row lands in the overflow slot |
| OutputFormat.Key | data_driven_qcd.py:445-505 | the entry names `qcd_{channel}_{year}` and `qcd_{channel}_{year}_{systematic}_{channel}_{year}{direction}` (systematic `qcdbinning` or `qcdfit`, direction `Up` or `Down`); `DecodeKeyInverts` and `KeyInjective` state that distinct entries get distinct names |
| OutputFormat.BaseLayout | data_driven_qcd.py:445 | `qcd_{channel}_{year}` has the channel at a fixed position and the year's last digit right after it |
| OutputFormat.SuffixLayout | data_driven_qcd.py:476-509 | a variation's suffix fixes the systematic at position 4 and ends with the direction |
| OutputFormat.DecodeKeyInverts | data_driven_qcd.py:476-509 | each name decodes back to its channel, year and entry |
| OutputFormat.KeyInjective | data_driven_qcd.py:476-509 | distinct (channel, year, entry) triples have distinct names |
| OutputFormat.NoUnderscoreJ | data_driven_qcd.py:444 | a string without '_' followed by 'j' does not contain "_j" |
| OutputFormat.MonojetRegion | data_driven_qcd.py:444 | `cr_qcd_j` is in the monojet channel |
| OutputFormat.MonovRegions | data_driven_qcd.py:444 | `cr_qcd_loose_v` and `cr_qcd_tight_v` are in the mono-V channel |
| Prediction.Scaled | data_driven_qcd.py:439-440 | `evaluate(x) * c`: one value per centre; `ScaledAt` states entry i is f(x_i)·c_i |
| Prediction.ScaledAt | data_driven_qcd.py:439 | entry i of a scaled curve is the curve at x_i times c_i |
| Prediction.Reflected | data_driven_qcd.py:483 | `2*nominal - varied`: in every entry, reflection plus varied is twice the nominal |
| Prediction.ReflectedInvolution | data_driven_qcd.py:483 | reflecting twice gives back the variation |
| Prediction.ControlEstimate | data_driven_qcd.py:425 | one estimate per row: data minus non-QCD in the slot past the underflow |
| Prediction.ControlVariance | data_driven_qcd.py:425 | one variance per row: data plus non-QCD variance in that slot |
| Prediction.Predict | data_driven_qcd.py:425-497 | fails exactly without a regular bin or without `nom`, naming the cause; otherwise gives well-formed curves over the written edges and the recoil mask, with a binning variation exactly when `alt3` exists |
| Prediction.PredictCurves | data_driven_qcd.py:439-497 | nominal = best·cr and its variance = best·var(cr), linearly; the fit variations are the envelope curves times cr; the binning variation is the `alt3` best fit times cr |
| Prediction.ScaledOrdered | data_driven_qcd.py:497 | curves ordered at every centre stay ordered after scaling by a non-negative estimate |
| Prediction.ScaledNonNegative | data_driven_qcd.py:440 | a non-negative curve times non-negative values is non-negative |
| Prediction.Written | data_driven_qcd.py:445-449 | a `URTH1` with the given edges, contents `[0] ++ v[mask]` and variances `[0] ++ w[mask]`; `WrittenShapes` and `WrittenAboveCut` state its shape and slots |
| Prediction.Template | data_driven_qcd.py:476-485 | a systematic `URTH1`: like `Written` with zero variances; `BinningReflection` states that its variances are all zero |
| Prediction.Store | data_driven_qcd.py:445-509 | the `fout[...]` assignments of one year in order; `StoreEntries`, `KeysWrittenCount` and `YearsDoNotOverwrite` state what the file then holds |
| Prediction.KeysWrittenCount | data_driven_qcd.py:445-509 | a year writes five distinct names with a binning variation and three without |
| Prediction.StoreEntries | data_driven_qcd.py:445-509 | a year's writes add exactly its names, each holding its own histogram, and keep every other entry |
| Prediction.YearsDoNotOverwrite | data_driven_qcd.py:410-411 | in the one file shared by both years, one year's writes never touch the other year's entries |
| Prediction.BinningOnlyFromAlt3 | data_driven_qcd.py:462-464 | a binning template is written if and only if an `alt3` fit exists |
| Prediction.BinningKeyWritten | data_driven_qcd.py:462-485 | a binning name is present afterwards if and only if it was before or the year has a binning variation |
| Prediction.WrittenShapes | data_driven_qcd.py:445-509 | every written histogram of a year has the same edges and length |
| Prediction.BinningReflection | data_driven_qcd.py:476-485 | the binning Up and Down templates share the nominal's edges and length, Up + Down = 2·nominal in every slot, and both have all-zero variances |
| Prediction.MaskedReflection | data_driven_qcd.py:483 | masking commutes with the reflection |
| Prediction.MaskedOrdered | data_driven_qcd.py:497-509 | masking keeps an entry-by-entry order |
| Prediction.MaskedNonNegative | data_driven_qcd.py:448 | masking keeps non-negative values non-negative |
| Prediction.CurvesBracketed | data_driven_qcd.py:497 | before the mask, the envelope curves times a non-negative estimate bracket the best fit times it |
| Prediction.MaskedBracket | data_driven_qcd.py:500-509 | a row-by-row bracket becomes a slot-by-slot bracket of the written Down, nominal and Up templates |
| Prediction.WrittenEnvelopeBrackets | data_driven_qcd.py:497-509 | curves built from one fit and a non-negative estimate give written fit templates that bracket the nominal |
| Prediction.FitEnvelopeBrackets | data_driven_qcd.py:497-509 | when the envelope brackets the best fit at every centre and data ≥ non-QCD, the written qcdfit Down ≤ nominal ≤ Up in every slot |
| Prediction.ControlEstimateNonNegative | data_driven_qcd.py:425 | the control-region estimate is non-negative wherever data is at least the non-QCD backgrounds |
| Prediction.ControlVarianceNonNegative | data_driven_qcd.py:425 | the control-region variance is non-negative when both inputs' variances are |
| Prediction.CurvesVarianceNonNegative | data_driven_qcd.py:440 | every row's nominal variance is non-negative when the best fit and the input variances are |
| Prediction.WrittenVarianceNonNegative | data_driven_qcd.py:448 | writing keeps a non-negative variance non-negative |
| Prediction.NominalVarianceNonNegative | data_driven_qcd.py:440-448 | the written nominal variances are non-negative when the best fit and the input variances are |
| Prediction.WrittenAboveCut | data_driven_qcd.py:445-449 | with increasing edges, a written histogram is the rows from j on behind an empty underflow slot, over edges[j..] |
| Prediction.NominalAtMaskedRows | data_driven_qcd.py:439-449 | the written nominal is a valid histogram over edges[j..]: slot 0 empty, then best(x_i)·cr_i for rows i ≥ j, with variance best(x_i)·var(cr_i) |
| Prediction.PredictionFile.Put | data_driven_qcd.py:445 | an assignment sets one name and keeps every other entry |
| Prediction.WriteBinning | data_driven_qcd.py:462-485 | the loop over the fits writes the `alt3` Up template and its reflection as Down, and nothing for other fits |
| Prediction.WritePrediction | data_driven_qcd.py:425-509 | one year returns `Predict`'s result; on failure the file is unchanged; otherwise the file is the old one with exactly the year's nominal, binning and fit entries written in the source's order |

## Left out

- Histogram-store operations: coffea `rebin`/`integrate`, regex dataset selection (data_driven_qcd.py:74-89), and klepto loading, merging and cross-section scaling (data_driven_qcd.py:570-585). They belong to external libraries; their outputs are the input histograms.
- The least-squares fit `TFFit` (data_driven_qcd.py:129-139). The fitting library is not part of this model. The fits are parameters, so nothing about minimisation or covariance is modelled, and envelope ordering is an assumption of `Prediction.FitEnvelopeBrackets`, not a fact.
- Floating point. The model works over exact reals. `np.exp` and `np.sqrt` are uninterpreted parameters, and NaN or infinity from an empty control-region bin is excluded by a `cr ≠ 0` precondition.
- TransferFactor.RatioVariance: states the squared uncertainty, because the file stores `dtf**2`. The square root of `np.hypot` is not modelled.
- All matplotlib plotting. This covers the fit plots, `tf_variations`, most of `tf_closure` and the ±25 % closure band (data_driven_qcd.py:487-495). The band is drawn but never written.
- File I/O: uproot reading and writing, pickle, directory creation, and the `os.listdir`/regex discovery of fit files (data_driven_qcd.py:415-421). The file is the `PredictionFile` class, and the discovered fits are a map.
- The loop over the years (data_driven_qcd.py:411). `Prediction.WritePrediction` models one iteration, and `Prediction.YearsDoNotOverwrite` shows that two iterations do not interfere.
- FitInputs.FitPoints / Bins.BinGeometry / FitInputs.TransferFactorPoints: require at least two edges; the source raises IndexError at `bins[-2]` (lines 123, 304) for a binning with no regular bin, and this error path is not modelled for the fit inputs.
- Prediction.WritePrediction: evaluates the curves at the centres of `Bins.PatchedRows`, the same values that `Bins.BinGeometry` is proved to compute in place. It does not run the array patch a second time.
- Prediction.WriteBinning: the order in which a Python dict yields its fits is not modelled. The loop takes the fits in an arbitrary order, and its result does not depend on that order.
- `np.unique` is modelled by insertion into a sorted sequence. Only its result, the sorted distinct values, is claimed, not numpy's algorithm.
