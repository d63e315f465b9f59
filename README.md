# ddbar_savehist in Dafny

A model of the histogram-filling core of `ddbar_savehist`. This analysis step
reads reconstructed D0 candidates event by event. It selects trigger and
associate candidates and fills invariant-mass histograms per azimuthal-angle
separation (Δφ) bin, for the signal ("inclusive") and sideband mass regions.

Files:

- `binning.dfy` (module `Binning`): the two `std::lower_bound` lookups.
  - `CentralityID` gives an event's centrality band. It uses the boundaries
    `{0, 30, 50, 80}`, compared against half the centrality.
  - `PhiBin` gives a trigger's detector-phi bin, `lower_bound(phis, phi) - 1`.
  - Both model the wrap-around to `unsigned` explicitly: in `centralityID` the
    `- 1` is itself unsigned, in the phi lookup the signed difference `- 1` is
    converted to `unsigned`.
  - `DetectorPhiBounds` is the loop that builds the nine boundaries (-1 + i/4)·π.
- `candidates.dfy` (module `Candidates`): the candidate and event records,
  the cut parameters, and the selection predicates.
  - The event centrality window.
  - The trigger window.
  - The signal and sideband mass regions.
  - The associate rules: pT window, |y| cut, lower pT by at least 0.0001,
    opposite flavor.
- `fill_model.dfy` (module `FillModel`): the pure specification of the loop.
  - A histogram is the sequence of masses filled into it, so its entry count
    is the sequence's length.
  - `Hists` holds `hmass_trig` and the vectors `hmass_incl`, `hmass_sdbd`,
    `hmass_incl_scaled`, `hmass_sdbd_scaled` and `hmass_incl_det`.
  - `AddPair`, `AddAssociates`, `AddTrigger`, `AddTriggers`, `AddEvent` and
    `AddEvents` mirror the three nested loops step by step.
  - The counting lemmas state how many entries each bin gains.
- `index_sets.dfy` (module `IndexSets`): sets of loop indices and index pairs
  that satisfy a condition, and how their sizes grow by one loop step. The
  counting lemmas are stated with them.
- `save_hist.dfy` (module `SaveHist`): the imperative loop.
  - Class `HistogramSet` keeps each histogram vector as an array, filled in place.
  - Each method has a `while` loop where the source has a `for` loop.
  - Each method is proved to change the abstract state `State()` exactly as
    the matching `FillModel` function says.

Two external parts are parameters of `FillModel.Config`:

- `getdphi` from the unseen `ddbar.h` is the field `dphiBin`.
- `nphibin` is the field `nbins`.

The mass-region constants (`MASS_DZERO`, `signalwidth`, `sideband_l`,
`sideband_h`) are the fields of `Candidates.MassWindows`.

The centrality bands are labelled by `centralityString` as `cent0to30`,
`cent30to50` and `cent50to80` (mainana/ddbar_savehist.cc:22-24). The event
centrality is in half-percent units, and `centralityID` compares each
boundary against half of it with `i < j / 2`. So band k is the interval
2·b[k] < c ≤ 2·b[k+1]: (0,60], (60,100] and (100,160], with the upper edge
inclusive and 0 special-cased to band 0. `CentralityID`'s contract states
exactly these intervals.

## Model

| member | source | states |
|---|---|---|
| Binning.Unsigned | mainana/ddbar_savehist.cc:32 | Converting to `unsigned` leaves non-negative values alone and wraps negative ones by adding 2^32. |
| Binning.LowerBound | mainana/ddbar_savehist.cc:30-31 | The result is the first position whose element is not below x. Every earlier element is below x. On a sorted range, every later element is not below x. |
| Binning.CentralityBoundsAsReal | mainana/ddbar_savehist.cc:31 | The comparator sees the boundaries converted to floating point: 0, 30, 50, 80, in increasing order. |
| Binning.CentralityID | mainana/ddbar_savehist.cc:26-33 | Centrality 0 gives band 0. For 0 < c ≤ 160 the result is the band k < 3 with 2·centralities[k] < c ≤ 2·centralities[k+1]. Above 160 the result is 3, one past the last band. A negative centrality wraps to 2^32-1. |
| Binning.PhiBin | mainana/ddbar_savehist.cc:112 | At or below the first boundary (or with no boundaries) the difference is -1, and its conversion to unsigned wraps it to 2^32-1. Above it, the result k satisfies phis[k] < phi ≤ phis[k+1], so the upper edge is inclusive. Past the last boundary of a sorted list the result is the last index. |
| Binning.PhiBinUnique | mainana/ddbar_savehist.cc:112 | With sorted boundaries, the k with phis[k] < phi ≤ phis[k+1] is exactly the bin PhiBin returns. |
| Binning.DetectorPhiBound | mainana/ddbar_savehist.cc:110 | For pi > 0, the boundaries before index 4 are negative and those after it are positive. |
| Binning.DetectorPhiBounds | mainana/ddbar_savehist.cc:108-111 | The push_back loop yields nine boundaries (-1 + i/4)·pi. They run from -pi to pi, and consecutive boundaries are pi/4 apart. |
| Binning.DetectorBoundsIncreasing | mainana/ddbar_savehist.cc:109-110 | For pi > 0 the detector boundaries strictly increase. |
| Binning.DetectorBinInRange | mainana/ddbar_savehist.cc:108-113 | With these boundaries, every angle in (-pi, pi] maps to a bin 0..7 that brackets it. Neither the underflow nor the past-the-end bin occurs. |
| Candidates.InCentralityWindow | mainana/ddbar_savehist.cc:86 | An event is kept iff its integer centrality lies between the ceiling of centmin·2 and the floor of centmax·2, both inclusive. |
| Candidates.IsTrigger | mainana/ddbar_savehist.cc:91-92 | A candidate is a trigger iff pt1min ≤ pT ≤ pt1max and -yd ≤ y ≤ yd. |
| Candidates.InRegion | mainana/ddbar_savehist.cc:96-97 | The signal region is the open interval (m_D0 - signalwidth, m_D0 + signalwidth). For sideband_l ≥ 0 the sideband is the two open intervals (m_D0 + sideband_l, m_D0 + sideband_h) and (m_D0 - sideband_h, m_D0 - sideband_l). |
| Candidates.InAnyRegion | mainana/ddbar_savehist.cc:98 | A trigger takes part iff its mass is in some region. When signalwidth ≤ sideband_l, no mass is in both. |
| Candidates.IsAssociate | mainana/ddbar_savehist.cc:117-119 | A candidate is an associate of t iff pt2min ≤ pT ≤ pt2max, -yd ≤ y ≤ yd, its pT is at most t's pT minus 0.0001, and the two flavors do not have strictly the same sign. |
| Candidates.PairRules | mainana/ddbar_savehist.cc:119 | A candidate is never its own associate. Same-sign pairs never pair. Pairs less than 0.0001 apart in pT never pair. Of (t,a) and (a,t), at most one is accepted. |
| FillModel.Empty | mainana/ddbar_savehist.cc:61-78 | Every histogram starts empty, with one histogram per Δφ bin in each vector, and the scaled twins equal the unscaled histograms. |
| FillModel.AddPair | mainana/ddbar_savehist.cc:116-137 | A pair fill keeps the vector sizes and keeps the scaled twins in step with the unscaled histograms. It never touches `hmass_trig` or `hmass_incl_det`. |
| FillModel.AddAssociates | mainana/ddbar_savehist.cc:114-138 | The associate loop keeps the vector sizes, keeps the scaled twins in step, and leaves `hmass_trig` and `hmass_incl_det` alone. |
| FillModel.AddDet | mainana/ddbar_savehist.cc:112-113 | The detector-phi fill changes only `hmass_incl_det`, or the dropped-bin count. |
| FillModel.AddTrigger | mainana/ddbar_savehist.cc:89-139 | One trigger pass keeps the vector sizes and keeps the scaled twins in step. |
| FillModel.AddTriggers | mainana/ddbar_savehist.cc:89-139 | The trigger loop keeps the vector sizes and keeps the scaled twins in step. |
| FillModel.AddEvent | mainana/ddbar_savehist.cc:85-139 | One event keeps the vector sizes and keeps the scaled twins in step. |
| FillModel.AddEvents | mainana/ddbar_savehist.cc:81-140 | The event loop keeps the vector sizes and keeps the scaled twins in step. |
| FillModel.Run | mainana/ddbar_savehist.cc:61-140 | At the end of the run, every scaled histogram holds exactly the fills of its unscaled twin, in the same bins. |
| FillModel.PairTally | mainana/ddbar_savehist.cc:128-137 | One accepted pair adds exactly one entry to `hmass_incl[idphi]` iff the trigger is inclusive, and to `hmass_sdbd[idphi]` iff it is sideband. No other bin changes. A pair with an invalid Δφ bin adds one to the dropped count instead. |
| FillModel.PairFill | mainana/ddbar_savehist.cc:116-137 | Δφ bin k of a region's vector receives the associate's mass (not the trigger's) exactly when the pair lands in that bin. Every other bin of both vectors keeps its contents unchanged. |
| FillModel.AssociatesTally | mainana/ddbar_savehist.cc:114-138 | The associate loop adds to each bin (and to the dropped count) one entry per visited pair that lands there. |
| FillModel.TriggerTally | mainana/ddbar_savehist.cc:89-139 | One trigger pass adds to each bin (and to the dropped count) one entry per pair with that trigger that lands there. A candidate failing the trigger window or both mass regions adds none. |
| FillModel.TriggersTally | mainana/ddbar_savehist.cc:89-139 | The trigger loop adds to each bin one entry per (trigger, associate) pair of the triggers visited so far that lands there. |
| FillModel.EventTally | mainana/ddbar_savehist.cc:86-139 | Over one event inside the centrality window, three counts hold. (1) `hmass_incl[k]` / `hmass_sdbd[k]` gains exactly one entry per (inclusive / sideband trigger, accepted associate) pair with Δφ bin k. (2) The vector's total grows by the number of such pairs with a valid bin. (3) The dropped count grows by the accepted pairs with an invalid bin. An event outside the window adds nothing. |
| FillModel.RunTally | mainana/ddbar_savehist.cc:81-140 | At the end of the run, each bin, each vector total and the dropped count equal the number of qualifying pairs, summed over the events inside the centrality window. |
| FillModel.CentralityBandInRange | mainana/ddbar_savehist.cc:86-87 | With 0 ≤ centmin and centmax ≤ 80, every event inside the centrality window gets a band 0..2. |
| FillModel.CentralityBandPastEnd | mainana/ddbar_savehist.cc:86-87 | With centmin = 0 and centmax = 90, centrality 170 is inside the window but gets band 3, one past the last band. |
| FillModel.RejectedEventUnchanged | mainana/ddbar_savehist.cc:86 | An event whose centrality is outside [centmin·2, centmax·2] leaves every histogram unchanged. |
| FillModel.TriggerOutsideRegions | mainana/ddbar_savehist.cc:93-98 | A trigger whose mass is in neither the signal nor the sideband region adds its `hmass_trig` entry and nothing else. |
| FillModel.TriggersTrigCount | mainana/ddbar_savehist.cc:91-93 | `hmass_trig` gains exactly one entry per candidate with pt1min ≤ pT ≤ pt1max and \|y\| ≤ yd. |
| FillModel.TriggerDetStep | mainana/ddbar_savehist.cc:112-113 | One trigger pass adds one entry to bin b of `hmass_incl_det` iff the trigger is in a mass region and its detector-phi bin is b. |
| FillModel.TriggersDetStep | mainana/ddbar_savehist.cc:108-113 | Extending the trigger loop by one candidate adds one entry to bin b of `hmass_incl_det` iff that candidate is filled there. |
| FillModel.TriggersDetCount | mainana/ddbar_savehist.cc:108-113 | Bin b of `hmass_incl_det` gains exactly one entry per trigger in a mass region whose detector-phi bin is b. |
| SaveHist.HistogramSet.constructor | mainana/ddbar_savehist.cc:61-78 | The histogram vectors are fresh arrays of nphibin empty histograms, and `hmass_trig` is empty. |
| SaveHist.HistogramSet.FillPair | mainana/ddbar_savehist.cc:116-137 | Applying the source's cut conditions in place changes the arrays exactly as AddPair says. |
| SaveHist.HistogramSet.FillAssociates | mainana/ddbar_savehist.cc:114-138 | The associate loop over all candidates, with the trigger's region flags, changes the arrays exactly as AddAssociates says. |
| SaveHist.HistogramSet.FillTrigger | mainana/ddbar_savehist.cc:91-138 | The trigger cuts, the region flags, the detector-phi fill and the associate loop change the arrays exactly as AddTrigger says. |
| SaveHist.HistogramSet.FillEvent | mainana/ddbar_savehist.cc:86-139 | The centrality cut and the trigger loop change the arrays exactly as AddEvent says. |
| SaveHist.HistogramSet.FillEvents | mainana/ddbar_savehist.cc:81-140 | The event loop changes the arrays exactly as AddEvents says. |
| SaveHist.SaveHistograms | mainana/ddbar_savehist.cc:61-140 | Creating and filling the histograms yields the state Run describes, with every scaled histogram mirroring its unscaled twin. |

## Left out

- ROOT file I/O (`TFile::Open`, `Get`, `Write`, `Close`, `Sumw2`, `xjjroot::mkdir`, the output path) and the two reference MC histograms: these are external library plumbing.
- The efficiency weights (`TEfficiency::GetEfficiency`, `FindFixBin`, `1/eff`): these are foreign calls and floating-point arithmetic.
  - A scaled histogram records a fill of the same mass in the same bin as its unscaled twin, and the weight is not kept.
  - For the same reason `CentralityID` feeds nothing in the fill model. Its contract shows that a centrality above 160 gives index 3, one past the three-entry efficiency vector.
- AddEvent: an event inside the centrality window whose band is out of range is filled like any other. That happens for a centrality above 160 when centmax > 80, and for a negative centrality when centmin < 0. The source then indexes `eff` with that band, which is undefined behaviour. The efficiency weights are not modelled, so nothing in the model depends on the band. `CentralityBandInRange` states when the band is in range, and `CentralityBandPastEnd` gives an event where it is not.
- The TH1F mass binning (60 bins in [1.72, 2.0], with underflow and overflow): a histogram is the sequence of filled masses.
- The `phi`, `phi_sc`, `phipt`, `phipt_sc` diagnostics: these are library histogram internals over floats.
- `ddbar::binning` and `ddbar::kinematics` are not part of this model.
  - `getdphi` and `nphibin` are parameters (`Config.dphiBin`, `Config.nbins`).
  - The boundary list `phis` is a parameter, and `DetectorPhiBounds` models its construction with π as a parameter.
- Floating-point rounding: `float`/`double` values are `real`, so the float rounding of the phi boundaries and NaN inputs are not modelled.
- The progress bar, `event_cutoff` and the `main` argument-count dispatch: these are glue.
  - The model processes every event.
  - `(int) 1e10` is out of `int` range, so the cut-off's value is compiler-dependent.
- FillPair: where the source logs "invalid dphi" and then indexes the histogram vector with the negative `idphi` (undefined behaviour), the model drops the fill and counts it in `droppedDphi`. An `idphi` at or above `nbins` is treated the same way.
- AddPair: drops and counts a pair with an invalid Δφ bin, in the same way as FillPair.
- AddDet: where the source indexes `hmass_incl_det` with the wrapped-around or too-large detector-phi bin (undefined behaviour), the model drops the fill and counts it in `droppedPhi`.
- FillTrigger: drops and counts an invalid detector-phi bin, in the same way as AddDet.
- PhiBin: the bracketing contract is stated only for boundary lists shorter than 2^32 entries. Longer lists would also wrap the index in the source.
- Evaluation order of the floating-point fills (bit-exact accumulation) is not modelled. Filled masses are kept in fill order.
