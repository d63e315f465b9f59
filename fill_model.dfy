/** What the event / trigger / associate loop of ddbar_savehist adds to its
    histograms, as a pure fold over the events. A mass histogram is modelled by
    the sequence of masses filled into it, so its entry count is the sequence's
    length. */
module FillModel {
  import opened Binning
  import opened Candidates
  import opened IndexSets

  /** Run parameters: the cuts, the mass regions, the detector-phi boundaries,
      the number of Δφ bins (`nphibin`) and the Δφ bin of a trigger/associate
      azimuth pair (`getdphi`, which may report a negative index). */
  datatype Config = Config(cuts: Cuts, windows: MassWindows, phis: seq<real>,
                           nbins: nat, dphiBin: (real, real) -> int)

  /** The histograms the loop fills: `hmass_trig`, the per-Δφ-bin vectors
      `hmass_incl`, `hmass_sdbd`, their `_scaled` twins and `hmass_incl_det`,
      and the number of fills dropped for an invalid Δφ or detector-phi bin. */
  datatype Hists = Hists(trig: seq<real>,
                         incl: seq<seq<real>>, sdbd: seq<seq<real>>,
                         inclScaled: seq<seq<real>>, sdbdScaled: seq<seq<real>>,
                         inclDet: seq<seq<real>>,
                         droppedDphi: nat, droppedPhi: nat)

  /** Every per-bin vector has one histogram per Δφ bin. */
  predicate WellFormed(cfg: Config, h: Hists) {
    && |h.incl| == cfg.nbins && |h.sdbd| == cfg.nbins
    && |h.inclScaled| == cfg.nbins && |h.sdbdScaled| == cfg.nbins
    && |h.inclDet| == cfg.nbins
  }

  /** Each efficiency-scaled histogram has received a fill exactly when, and in
      the bin where, its unscaled twin has. */
  predicate Mirrored(h: Hists) {
    h.inclScaled == h.incl && h.sdbdScaled == h.sdbd
  }

  /** The per-bin vector of a region. */
  function RegionHists(h: Hists, r: Region): seq<seq<real>> {
    match r
    case Inclusive => h.incl
    case Sideband => h.sdbd
  }

  /** The histograms as created before the event loop: all empty. */
  function Empty(cfg: Config): (h: Hists)
    ensures WellFormed(cfg, h) && Mirrored(h)
    ensures h.trig == [] && h.droppedDphi == 0 && h.droppedPhi == 0
    ensures forall k :: 0 <= k < cfg.nbins ==> h.incl[k] == [] && h.sdbd[k] == [] && h.inclDet[k] == []
  {
    var none := seq(cfg.nbins, _ => []);
    Hists([], none, none, none, none, none, 0, 0)
  }

  /** Associate `a` of trigger `t`: when the pair is accepted, the associate's
      mass goes into Δφ bin `getdphi(t.phi, a.phi)` of the inclusive and/or the
      sideband vector (and its scaled twin), as the trigger's flags say. */
  function AddPair(cfg: Config, h: Hists, t: Candidate, a: Candidate, isIncl: bool, isSdbd: bool): (r: Hists)
    requires WellFormed(cfg, h)
    ensures WellFormed(cfg, r)
    ensures Mirrored(h) ==> Mirrored(r)
    ensures r.trig == h.trig && r.inclDet == h.inclDet && r.droppedPhi == h.droppedPhi
  {
    if !IsAssociate(cfg.cuts, t, a) then h
    else
      var k := cfg.dphiBin(t.phi, a.phi);
      if !(0 <= k < cfg.nbins) then h.(droppedDphi := h.droppedDphi + 1)
      else
        var h1 := if isIncl
                  then h.(incl := h.incl[k := h.incl[k] + [a.mass]],
                          inclScaled := h.inclScaled[k := h.inclScaled[k] + [a.mass]])
                  else h;
        if isSdbd
        then h1.(sdbd := h1.sdbd[k := h1.sdbd[k] + [a.mass]],
                 sdbdScaled := h1.sdbdScaled[k := h1.sdbdScaled[k] + [a.mass]])
        else h1
  }

  /** The associate loop of trigger cs[j] over the candidates cs[..m]. */
  function AddAssociates(cfg: Config, h: Hists, cs: seq<Candidate>, j: nat, m: nat): (r: Hists)
    requires WellFormed(cfg, h) && j < |cs| && m <= |cs|
    ensures WellFormed(cfg, r)
    ensures Mirrored(h) ==> Mirrored(r)
    ensures r.trig == h.trig && r.inclDet == h.inclDet && r.droppedPhi == h.droppedPhi
  {
    if m == 0 then h
    else
      var t := cs[j];
      AddPair(cfg, AddAssociates(cfg, h, cs, j, m - 1), t, cs[m - 1],
              InRegion(cfg.windows, t.mass, Inclusive), InRegion(cfg.windows, t.mass, Sideband))
  }

  /** The trigger's own detector-phi fill into `hmass_incl_det`. */
  function AddDet(cfg: Config, h: Hists, t: Candidate): (r: Hists)
    requires WellFormed(cfg, h)
    ensures WellFormed(cfg, r)
    ensures Mirrored(h) ==> Mirrored(r)
    ensures r.trig == h.trig && r.incl == h.incl && r.sdbd == h.sdbd && r.droppedDphi == h.droppedDphi
  {
    var b := PhiBin(cfg.phis, t.phi);
    if b < cfg.nbins then h.(inclDet := h.inclDet[b := h.inclDet[b] + [t.mass]])
    else h.(droppedPhi := h.droppedPhi + 1)
  }

  /** One pass of the trigger loop for candidate cs[j]. */
  function AddTrigger(cfg: Config, h: Hists, cs: seq<Candidate>, j: nat): (r: Hists)
    requires WellFormed(cfg, h) && j < |cs|
    ensures WellFormed(cfg, r)
    ensures Mirrored(h) ==> Mirrored(r)
  {
    var t := cs[j];
    if !IsTrigger(cfg.cuts, t) then h
    else
      var h1 := h.(trig := h.trig + [t.mass]);
      if !InAnyRegion(cfg.windows, t.mass) then h1
      else AddAssociates(cfg, AddDet(cfg, h1, t), cs, j, |cs|)
  }

  /** The trigger loop over cs[..n]. */
  function AddTriggers(cfg: Config, h: Hists, cs: seq<Candidate>, n: nat): (r: Hists)
    requires WellFormed(cfg, h) && n <= |cs|
    ensures WellFormed(cfg, r)
    ensures Mirrored(h) ==> Mirrored(r)
  {
    if n == 0 then h else AddTrigger(cfg, AddTriggers(cfg, h, cs, n - 1), cs, n - 1)
  }

  /** One ntuple entry: events outside the centrality window are skipped. */
  function AddEvent(cfg: Config, h: Hists, e: Event): (r: Hists)
    requires WellFormed(cfg, h)
    ensures WellFormed(cfg, r)
    ensures Mirrored(h) ==> Mirrored(r)
  {
    if !InCentralityWindow(cfg.cuts, e.centrality) then h
    else AddTriggers(cfg, h, e.cands, |e.cands|)
  }

  /** The event loop over events[..n]. */
  function AddEvents(cfg: Config, h: Hists, events: seq<Event>, n: nat): (r: Hists)
    requires WellFormed(cfg, h) && n <= |events|
    ensures WellFormed(cfg, r)
    ensures Mirrored(h) ==> Mirrored(r)
  {
    if n == 0 then h else AddEvent(cfg, AddEvents(cfg, h, events, n - 1), events[n - 1])
  }

  /** The histograms at the end of the run, before they are written out. */
  function Run(cfg: Config, events: seq<Event>): (h: Hists)
    ensures WellFormed(cfg, h) && Mirrored(h)
  {
    AddEvents(cfg, Empty(cfg), events, |events|)
  }

  // ---------------------------------------------------------------------------
  // Counting what one event adds.

  /** Where an accepted pair is counted: one Δφ bin of a region's vector, all
      Δφ bins of a region's vector together, or the dropped fills of pairs
      whose Δφ bin is invalid. */
  datatype Slot = Bin(region: Region, k: int) | AllBins(region: Region) | DroppedDphi

  /** The number of entries in a vector of histograms. */
  function TotalEntries(hs: seq<seq<real>>): nat {
    if |hs| == 0 then 0 else TotalEntries(hs[..|hs| - 1]) + |hs[|hs| - 1]|
  }

  /** Filling one histogram of a vector adds one entry to the vector's total. */
  lemma {:induction false} TotalEntriesFill(hs: seq<seq<real>>, k: int, x: real)
    requires 0 <= k < |hs|
    ensures TotalEntries(hs[k := hs[k] + [x]]) == TotalEntries(hs) + 1
  {
    var n := |hs| - 1;
    var hs' := hs[k := hs[k] + [x]];
    if k < n {
      TotalEntriesFill(hs[..n], k, x);
      assert hs'[..n] == hs[..n][k := hs[k] + [x]];
    } else {
      assert hs'[..n] == hs[..n];
    }
  }

  predicate ValidSlot(cfg: Config, s: Slot) {
    s.Bin? ==> 0 <= s.k < cfg.nbins
  }

  /** The number of entries a slot holds. */
  function Tally(cfg: Config, h: Hists, s: Slot): nat
    requires WellFormed(cfg, h) && ValidSlot(cfg, s)
  {
    match s
    case Bin(r, k) => |RegionHists(h, r)[k]|
    case AllBins(r) => TotalEntries(RegionHists(h, r))
    case DroppedDphi => h.droppedDphi
  }

  /** The pair (cs[j], cs[l]) ends up in slot s: cs[j] is a trigger, cs[l] is
      its associate, and the trigger's region and the pair's Δφ bin match s. */
  predicate PairLandsIn(cfg: Config, cs: seq<Candidate>, j: int, l: int, s: Slot)
    requires 0 <= j < |cs| && 0 <= l < |cs|
  {
    var t := cs[j];
    var k := cfg.dphiBin(t.phi, cs[l].phi);
    && IsTrigger(cfg.cuts, t)
    && IsAssociate(cfg.cuts, t, cs[l])
    && match s
       case Bin(r, b) => InRegion(cfg.windows, t.mass, r) && k == b
       case AllBins(r) => InRegion(cfg.windows, t.mass, r) && 0 <= k < cfg.nbins
       case DroppedDphi => InAnyRegion(cfg.windows, t.mass) && !(0 <= k < cfg.nbins)
  }

  /** The condition of slot s as a predicate on index pairs of cs. */
  function LandsIn(cfg: Config, cs: seq<Candidate>, s: Slot): (int, int) -> bool {
    (j, l) => 0 <= j < |cs| && 0 <= l < |cs| && PairLandsIn(cfg, cs, j, l, s)
  }

  /** All pairs of the event that land in slot s. */
  function EventPairs(cfg: Config, cs: seq<Candidate>, s: Slot): set<(int, int)> {
    AllPairs(|cs|, LandsIn(cfg, cs, s))
  }

  /** One pass of the associate loop adds one entry to slot s when the pair
      lands there, and none otherwise. */
  lemma PairTally(cfg: Config, h: Hists, cs: seq<Candidate>, j: nat, l: nat, s: Slot)
    requires WellFormed(cfg, h) && j < |cs| && l < |cs| && ValidSlot(cfg, s)
    requires IsTrigger(cfg.cuts, cs[j]) && InAnyRegion(cfg.windows, cs[j].mass)
    ensures Tally(cfg, AddPair(cfg, h, cs[j], cs[l], InRegion(cfg.windows, cs[j].mass, Inclusive),
                               InRegion(cfg.windows, cs[j].mass, Sideband)), s) ==
            Tally(cfg, h, s) + (if PairLandsIn(cfg, cs, j, l, s) then 1 else 0)
  {
    var t, a := cs[j], cs[l];
    var k := cfg.dphiBin(t.phi, a.phi);
    if s.AllBins? && IsAssociate(cfg.cuts, t, a) && 0 <= k < cfg.nbins {
      if InRegion(cfg.windows, t.mass, s.region) {
        TotalEntriesFill(RegionHists(h, s.region), k, a.mass);
      }
    }
  }

  /** What one pair fill puts where: Δφ bin k of a region's vector receives
      the associate's mass exactly when the pair lands in that bin, and every
      other bin of both vectors keeps its contents. */
  lemma PairFill(cfg: Config, h: Hists, cs: seq<Candidate>, j: nat, l: nat, r: Region, k: nat)
    requires WellFormed(cfg, h) && j < |cs| && l < |cs| && k < cfg.nbins
    requires IsTrigger(cfg.cuts, cs[j])
    ensures RegionHists(AddPair(cfg, h, cs[j], cs[l], InRegion(cfg.windows, cs[j].mass, Inclusive),
                                InRegion(cfg.windows, cs[j].mass, Sideband)), r)[k] ==
            RegionHists(h, r)[k] + (if PairLandsIn(cfg, cs, j, l, Bin(r, k)) then [cs[l].mass] else [])
  {
  }

  /** The associate loop of an accepted trigger adds to slot s one entry per
      pair it visits that lands in s. */
  lemma {:induction false} AssociatesTally(cfg: Config, h: Hists, cs: seq<Candidate>, j: nat, m: nat, s: Slot)
    requires WellFormed(cfg, h) && j < |cs| && m <= |cs| && ValidSlot(cfg, s)
    requires IsTrigger(cfg.cuts, cs[j]) && InAnyRegion(cfg.windows, cs[j].mass)
    ensures Tally(cfg, AddAssociates(cfg, h, cs, j, m), s) + |PairsBefore(|cs|, j, 0, LandsIn(cfg, cs, s))| ==
            Tally(cfg, h, s) + |PairsBefore(|cs|, j, m, LandsIn(cfg, cs, s))|
  {
    if m > 0 {
      var l := m - 1;
      var p := LandsIn(cfg, cs, s);
      AssociatesTally(cfg, h, cs, j, l, s);
      PairTally(cfg, AddAssociates(cfg, h, cs, j, l), cs, j, l, s);
      PairsStep(|cs|, j, l, p);
      assert p(j, l) == PairLandsIn(cfg, cs, j, l, s);
      assert l + 1 == m;
    }
  }

  /** One pass of the trigger loop for cs[j] adds one entry to slot s per pair
      (j, l) that lands in s. */
  lemma TriggerTally(cfg: Config, h: Hists, cs: seq<Candidate>, j: nat, s: Slot)
    requires WellFormed(cfg, h) && j < |cs| && ValidSlot(cfg, s)
    ensures Tally(cfg, AddTrigger(cfg, h, cs, j), s) + |PairsBefore(|cs|, j, 0, LandsIn(cfg, cs, s))| ==
            Tally(cfg, h, s) + |PairsBefore(|cs|, j + 1, 0, LandsIn(cfg, cs, s))|
  {
    var p := LandsIn(cfg, cs, s);
    NextRow(|cs|, j, p);
    var t := cs[j];
    if IsTrigger(cfg.cuts, t) && InAnyRegion(cfg.windows, t.mass) {
      var h1 := AddDet(cfg, h.(trig := h.trig + [t.mass]), t);
      assert Tally(cfg, h1, s) == Tally(cfg, h, s);
      AssociatesTally(cfg, h1, cs, j, |cs|, s);
    } else {
      EmptyRow(|cs|, j, p);
    }
  }

  /** The trigger loop over cs[..n] adds one entry to slot s per pair it visits
      that lands in s. */
  lemma {:induction false} TriggersTally(cfg: Config, h: Hists, cs: seq<Candidate>, n: nat, s: Slot)
    requires WellFormed(cfg, h) && n <= |cs| && ValidSlot(cfg, s)
    ensures Tally(cfg, AddTriggers(cfg, h, cs, n), s) == Tally(cfg, h, s) + |PairsBefore(|cs|, n, 0, LandsIn(cfg, cs, s))|
  {
    if n == 0 {
      assert PairsBefore(|cs|, 0, 0, LandsIn(cfg, cs, s)) == {};
    } else {
      var j := n - 1;
      TriggersTally(cfg, h, cs, j, s);
      TriggerTally(cfg, AddTriggers(cfg, h, cs, j), cs, j, s);
      assert j + 1 == n;
    }
  }

  /** Over one event, every Δφ bin k of a region's vector gains exactly one
      entry per (trigger in that region, accepted associate) pair whose Δφ bin
      is k, and the dropped-fill count grows by the number of accepted pairs
      whose Δφ bin is invalid; an event outside the centrality window adds
      nothing. */
  lemma EventTally(cfg: Config, h: Hists, e: Event, s: Slot)
    requires WellFormed(cfg, h) && ValidSlot(cfg, s)
    ensures Tally(cfg, AddEvent(cfg, h, e), s) ==
            Tally(cfg, h, s) + (if InCentralityWindow(cfg.cuts, e.centrality) then |EventPairs(cfg, e.cands, s)| else 0)
  {
    if InCentralityWindow(cfg.cuts, e.centrality) {
      TriggersTally(cfg, h, e.cands, |e.cands|, s);
    }
  }

  /** The number of pairs landing in slot s over the events inside the
      centrality window among events[..n]. */
  function RunPairs(cfg: Config, events: seq<Event>, n: nat, s: Slot): nat
    requires n <= |events|
  {
    if n == 0 then 0
    else
      var e := events[n - 1];
      RunPairs(cfg, events, n - 1, s) +
        (if InCentralityWindow(cfg.cuts, e.centrality) then |EventPairs(cfg, e.cands, s)| else 0)
  }

  /** A vector of empty histograms holds no entry. */
  lemma {:induction false} TotalEntriesEmpty(hs: seq<seq<real>>)
    requires forall k :: 0 <= k < |hs| ==> hs[k] == []
    ensures TotalEntries(hs) == 0
  {
    if |hs| > 0 {
      TotalEntriesEmpty(hs[..|hs| - 1]);
    }
  }

  /** At the end of the run every slot holds exactly one entry per pair, over
      all events inside the centrality window, that lands in it. */
  lemma {:induction false} RunTally(cfg: Config, events: seq<Event>, n: nat, s: Slot)
    requires n <= |events| && ValidSlot(cfg, s)
    ensures Tally(cfg, AddEvents(cfg, Empty(cfg), events, n), s) == RunPairs(cfg, events, n, s)
  {
    if n == 0 {
      TotalEntriesEmpty(Empty(cfg).incl);
    } else {
      RunTally(cfg, events, n - 1, s);
      EventTally(cfg, AddEvents(cfg, Empty(cfg), events, n - 1), events[n - 1], s);
    }
  }

  /** With a centrality window inside [0, 80] percent, every accepted event
      has a centrality band that indexes the three-entry efficiency vector. */
  lemma CentralityBandInRange(cuts: Cuts, centrality: int)
    requires 0.0 <= cuts.centmin && cuts.centmax <= 80.0
    requires InCentralityWindow(cuts, centrality)
    ensures 0 <= CentralityID(centrality) < NCentrality
  {
  }

  /** A wider window lets through events without a band: with centmax = 90,
      centrality 170 is accepted and its band index 3 is one past the end of
      the efficiency vector. */
  lemma CentralityBandPastEnd(cuts: Cuts)
    requires cuts.centmin == 0.0 && cuts.centmax == 90.0
    ensures InCentralityWindow(cuts, 170) && CentralityID(170) == NCentrality
  {
  }

  /** An event outside [centmin*2, centmax*2] leaves every histogram unchanged. */
  lemma RejectedEventUnchanged(cfg: Config, h: Hists, e: Event)
    requires WellFormed(cfg, h) && !InCentralityWindow(cfg.cuts, e.centrality)
    ensures AddEvent(cfg, h, e) == h
  {
  }

  /** A trigger whose mass is in neither region adds its `hmass_trig` entry
      and nothing else. */
  lemma TriggerOutsideRegions(cfg: Config, h: Hists, cs: seq<Candidate>, j: nat)
    requires WellFormed(cfg, h) && j < |cs|
    requires IsTrigger(cfg.cuts, cs[j]) && !InAnyRegion(cfg.windows, cs[j].mass)
    ensures AddTrigger(cfg, h, cs, j) == h.(trig := h.trig + [cs[j].mass])
  {
  }

  // ---------------------------------------------------------------------------
  // Counting `hmass_trig` and `hmass_incl_det` entries.

  /** The candidates among cs that pass the trigger window. */
  function TriggerAt(cfg: Config, cs: seq<Candidate>): int -> bool {
    j => 0 <= j < |cs| && IsTrigger(cfg.cuts, cs[j])
  }

  /** The trigger loop over cs[..n] gives `hmass_trig` exactly one entry per
      candidate inside the trigger window. */
  lemma {:induction false} TriggersTrigCount(cfg: Config, h: Hists, cs: seq<Candidate>, n: nat)
    requires WellFormed(cfg, h) && n <= |cs|
    ensures |AddTriggers(cfg, h, cs, n).trig| == |h.trig| + |Below(n, TriggerAt(cfg, cs))|
  {
    if n == 0 {
      assert Below(0, TriggerAt(cfg, cs)) == {};
    } else {
      var j := n - 1;
      TriggersTrigCount(cfg, h, cs, j);
      BelowStep(j, TriggerAt(cfg, cs));
      assert j + 1 == n;
    }
  }

  /** Trigger t is filled into detector-phi bin b of `hmass_incl_det`. */
  predicate DetLandsIn(cfg: Config, t: Candidate, b: int) {
    IsTrigger(cfg.cuts, t) && InAnyRegion(cfg.windows, t.mass) && PhiBin(cfg.phis, t.phi) == b
  }

  /** The candidates among cs that are filled into detector-phi bin b. */
  function DetAt(cfg: Config, cs: seq<Candidate>, b: int): int -> bool {
    j => 0 <= j < |cs| && DetLandsIn(cfg, cs[j], b)
  }

  /** One pass of the trigger loop adds one entry to bin b of `hmass_incl_det`
      when the trigger lands there, and none otherwise. */
  lemma TriggerDetStep(cfg: Config, h: Hists, cs: seq<Candidate>, j: nat, b: nat)
    requires WellFormed(cfg, h) && j < |cs| && b < cfg.nbins
    ensures |AddTrigger(cfg, h, cs, j).inclDet[b]| == |h.inclDet[b]| + (if DetLandsIn(cfg, cs[j], b) then 1 else 0)
  {
  }

  /** The same step, seen from the trigger loop over cs[..n + 1]. */
  lemma TriggersDetStep(cfg: Config, h: Hists, cs: seq<Candidate>, n: nat, b: nat)
    requires WellFormed(cfg, h) && n < |cs| && b < cfg.nbins
    ensures |AddTriggers(cfg, h, cs, n + 1).inclDet[b]| ==
            |AddTriggers(cfg, h, cs, n).inclDet[b]| + (if DetAt(cfg, cs, b)(n) then 1 else 0)
  {
    TriggerDetStep(cfg, AddTriggers(cfg, h, cs, n), cs, n, b);
  }

  /** Detector-phi bin b of `hmass_incl_det` gains exactly one entry per
      trigger in a mass region whose detector-phi bin is b. */
  lemma {:induction false} TriggersDetCount(cfg: Config, h: Hists, cs: seq<Candidate>, n: nat, b: nat)
    requires WellFormed(cfg, h) && n <= |cs| && b < cfg.nbins
    ensures |AddTriggers(cfg, h, cs, n).inclDet[b]| == |h.inclDet[b]| + |Below(n, DetAt(cfg, cs, b))|
  {
    if n == 0 {
      assert Below(0, DetAt(cfg, cs, b)) == {};
    } else {
      var m := n - 1;
      TriggersDetCount(cfg, h, cs, m, b);
      TriggersDetStep(cfg, h, cs, m, b);
      BelowStep(m, DetAt(cfg, cs, b));
      assert m + 1 == n;
    }
  }
}
