/** The histogram-filling loop of ddbar_savehist: the histogram vectors are
    arrays filled in place, and every method is proved to change them exactly
    as the corresponding step of the fold in FillModel says. */
module SaveHist {
  import opened Binning
  import opened Candidates
  import opened FillModel

  /** The histograms of one run. Each array holds one mass histogram per Δφ
      bin, modelled by the masses filled into it. */
  class HistogramSet {
    const cfg: Config
    var trig: seq<real>
    const incl: array<seq<real>>
    const sdbd: array<seq<real>>
    const inclScaled: array<seq<real>>
    const sdbdScaled: array<seq<real>>
    const inclDet: array<seq<real>>
    var droppedDphi: nat
    var droppedPhi: nat

    /** One histogram per Δφ bin in every vector, and no two vectors share storage. */
    ghost predicate Valid()
      reads this
    {
      && incl.Length == cfg.nbins && sdbd.Length == cfg.nbins
      && inclScaled.Length == cfg.nbins && sdbdScaled.Length == cfg.nbins
      && inclDet.Length == cfg.nbins
      && incl != sdbd && incl != inclScaled && incl != sdbdScaled && incl != inclDet
      && sdbd != inclScaled && sdbd != sdbdScaled && sdbd != inclDet
      && inclScaled != sdbdScaled && inclScaled != inclDet
      && sdbdScaled != inclDet
    }

    /** The contents of all histograms as a value. */
    ghost function State(): (h: Hists)
      reads this, incl, sdbd, inclScaled, sdbdScaled, inclDet
      ensures Valid() ==> WellFormed(cfg, h)
    {
      Hists(trig, incl[..], sdbd[..], inclScaled[..], sdbdScaled[..], inclDet[..], droppedDphi, droppedPhi)
    }

    /** Creates the empty histograms before the event loop. */
    constructor (cfg: Config)
      ensures Valid() && this.cfg == cfg
      ensures fresh(incl) && fresh(sdbd) && fresh(inclScaled) && fresh(sdbdScaled) && fresh(inclDet)
      ensures State() == Empty(cfg)
    {
      this.cfg := cfg;
      trig := [];
      incl := new seq<real>[cfg.nbins](_ => []);
      sdbd := new seq<real>[cfg.nbins](_ => []);
      inclScaled := new seq<real>[cfg.nbins](_ => []);
      sdbdScaled := new seq<real>[cfg.nbins](_ => []);
      inclDet := new seq<real>[cfg.nbins](_ => []);
      droppedDphi, droppedPhi := 0, 0;
      new;
      assert incl[..] == Empty(cfg).incl;
    }

    /** The body of the associate loop for trigger t and candidate a, with the
        trigger's region flags. A pair whose Δφ bin is invalid is dropped and
        counted instead of being filled at index -1. */
    method FillPair(t: Candidate, a: Candidate, isIncl: bool, isSdbd: bool)
      requires Valid()
      modifies this, incl, sdbd, inclScaled, sdbdScaled
      ensures Valid()
      ensures State() == AddPair(cfg, old(State()), t, a, isIncl, isSdbd)
    {
      if a.pt < cfg.cuts.pt2min || a.pt > cfg.cuts.pt2max { return; }
      if Abs(a.y) > cfg.cuts.yd { return; }
      if a.pt >= t.pt || Abs(a.pt - t.pt) < MinPtGap || a.flavor * t.flavor > 0.0 { return; }
      var idphi := cfg.dphiBin(t.phi, a.phi);
      if idphi < 0 || idphi >= cfg.nbins {
        droppedDphi := droppedDphi + 1;
        return;
      }
      if isIncl {
        incl[idphi] := incl[idphi] + [a.mass];
        inclScaled[idphi] := inclScaled[idphi] + [a.mass];
      }
      if isSdbd {
        sdbd[idphi] := sdbd[idphi] + [a.mass];
        sdbdScaled[idphi] := sdbdScaled[idphi] + [a.mass];
      }
    }

    /** The associate loop of trigger cs[j], with the trigger's region flags. */
    method FillAssociates(cs: seq<Candidate>, j: nat, isIncl: bool, isSdbd: bool)
      requires Valid() && j < |cs|
      requires isIncl == InRegion(cfg.windows, cs[j].mass, Inclusive)
      requires isSdbd == InRegion(cfg.windows, cs[j].mass, Sideband)
      modifies this, incl, sdbd, inclScaled, sdbdScaled
      ensures Valid()
      ensures State() == AddAssociates(cfg, old(State()), cs, j, |cs|)
    {
      ghost var h0 := State();
      var l := 0;
      while l < |cs|
        invariant 0 <= l <= |cs|
        invariant Valid()
        invariant State() == AddAssociates(cfg, h0, cs, j, l)
      {
        FillPair(cs[j], cs[l], isIncl, isSdbd);
        l := l + 1;
      }
    }

    /** The body of the trigger loop for candidate cs[j]. */
    method FillTrigger(cs: seq<Candidate>, j: nat)
      requires Valid() && j < |cs|
      modifies this, incl, sdbd, inclScaled, sdbdScaled, inclDet
      ensures Valid()
      ensures State() == AddTrigger(cfg, old(State()), cs, j)
    {
      var t := cs[j];
      if t.pt < cfg.cuts.pt1min || t.pt > cfg.cuts.pt1max { return; }
      if Abs(t.y) > cfg.cuts.yd { return; }
      trig := trig + [t.mass];
      var isIncl := Abs(t.mass - cfg.windows.massD0) < cfg.windows.signalWidth;
      var isSdbd := cfg.windows.sidebandLow < Abs(t.mass - cfg.windows.massD0) < cfg.windows.sidebandHigh;
      if !(isIncl || isSdbd) { return; }
      var iphi := PhiBin(cfg.phis, t.phi);
      if iphi < cfg.nbins {
        inclDet[iphi] := inclDet[iphi] + [t.mass];
      } else {
        droppedPhi := droppedPhi + 1;
      }
      FillAssociates(cs, j, isIncl, isSdbd);
    }

    /** The body of the event loop: events outside the centrality window are
        skipped, the others run the trigger loop over their candidates. */
    method FillEvent(e: Event)
      requires Valid()
      modifies this, incl, sdbd, inclScaled, sdbdScaled, inclDet
      ensures Valid()
      ensures State() == AddEvent(cfg, old(State()), e)
    {
      if e.centrality as real > cfg.cuts.centmax * 2.0 || e.centrality as real < cfg.cuts.centmin * 2.0 {
        return;
      }
      ghost var h0 := State();
      var j := 0;
      while j < |e.cands|
        invariant 0 <= j <= |e.cands|
        invariant Valid()
        invariant State() == AddTriggers(cfg, h0, e.cands, j)
      {
        FillTrigger(e.cands, j);
        j := j + 1;
      }
    }

    /** The event loop over all ntuple entries. */
    method FillEvents(events: seq<Event>)
      requires Valid()
      modifies this, incl, sdbd, inclScaled, sdbdScaled, inclDet
      ensures Valid()
      ensures State() == AddEvents(cfg, old(State()), events, |events|)
    {
      ghost var h0 := State();
      var i := 0;
      while i < |events|
        invariant 0 <= i <= |events|
        invariant Valid()
        invariant State() == AddEvents(cfg, h0, events, i)
      {
        FillEvent(events[i]);
        i := i + 1;
      }
    }
  }

  /** `ddbar_savehist` without its file I/O: create the histograms and fill
      them from the events. Every scaled histogram ends up with its fills in
      the same bins as its unscaled twin. */
  method SaveHistograms(cfg: Config, events: seq<Event>) returns (hs: HistogramSet)
    ensures hs.Valid() && hs.cfg == cfg
    ensures hs.State() == Run(cfg, events)
    ensures Mirrored(hs.State())
  {
    hs := new HistogramSet(cfg);
    hs.FillEvents(events);
  }
}
