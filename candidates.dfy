/** The ntuple records of ddbar_savehist and the cuts that select events,
    trigger candidates and associate candidates. */
module Candidates {

  /** One reconstructed D0 candidate: transverse momentum, rapidity, azimuth,
      K-pi invariant mass and flavor sign. */
  datatype Candidate = Candidate(pt: real, y: real, phi: real, mass: real, flavor: real)

  /** One ntuple entry: the event centrality (half-percent units) and its candidates. */
  datatype Event = Event(centrality: int, cands: seq<Candidate>)

  /** The kinematic cut parameters given on the command line. */
  datatype Cuts = Cuts(pt1min: real, pt1max: real, pt2min: real, pt2max: real,
                       yd: real, centmin: real, centmax: real)

  /** The mass regions around the D0 mass (`MASS_DZERO`, `signalwidth`,
      `sideband_l`, `sideband_h`). */
  datatype MassWindows = MassWindows(massD0: real, signalWidth: real, sidebandLow: real, sidebandHigh: real)

  /** The two classes a trigger's mass may fall in. */
  datatype Region = Inclusive | Sideband

  /** Associates closer than this in pT to the trigger are skipped. */
  const MinPtGap: real := 0.0001

  function Abs(x: real): (r: real)
    ensures r >= 0.0 && (r == x || r == -x)
  {
    if x < 0.0 then -x else x
  }

  /** The event's centrality lies in [centmin*2, centmax*2]: the accepted
      integer centralities run from the ceiling of centmin*2 to the floor of
      centmax*2. */
  function InCentralityWindow(cuts: Cuts, centrality: int): (b: bool)
    ensures b <==> -((-cuts.centmin * 2.0).Floor) <= centrality <= (cuts.centmax * 2.0).Floor
  {
    cuts.centmin * 2.0 <= centrality as real <= cuts.centmax * 2.0
  }

  /** The trigger window: pt1min <= pT <= pt1max and |y| <= yd, all inclusive. */
  function IsTrigger(cuts: Cuts, c: Candidate): (b: bool)
    ensures b <==> cuts.pt1min <= c.pt <= cuts.pt1max && -cuts.yd <= c.y <= cuts.yd
  {
    cuts.pt1min <= c.pt <= cuts.pt1max && Abs(c.y) <= cuts.yd
  }

  /** Signal region |m - m_D0| < signalwidth; sideband sideband_l < |m - m_D0| < sideband_h.
      As intervals: the signal region is open around m_D0; for a non-negative
      sideband_l, the sideband is the two open intervals on either side of it. */
  function InRegion(w: MassWindows, mass: real, r: Region): (b: bool)
    ensures r == Inclusive ==>
              (b <==> w.massD0 - w.signalWidth < mass < w.massD0 + w.signalWidth)
    ensures r == Sideband && 0.0 <= w.sidebandLow ==>
              (b <==> w.massD0 + w.sidebandLow < mass < w.massD0 + w.sidebandHigh ||
                      w.massD0 - w.sidebandHigh < mass < w.massD0 - w.sidebandLow)
  {
    match r
    case Inclusive => Abs(mass - w.massD0) < w.signalWidth
    case Sideband => w.sidebandLow < Abs(mass - w.massD0) < w.sidebandHigh
  }

  /** The trigger takes part in the correlation: its mass is in the signal
      region or in the sideband. When the signal region ends where the
      sideband starts, the two never overlap. */
  function InAnyRegion(w: MassWindows, mass: real): (b: bool)
    ensures b <==> exists r :: InRegion(w, mass, r)
    ensures w.signalWidth <= w.sidebandLow ==>
              !(InRegion(w, mass, Inclusive) && InRegion(w, mass, Sideband))
  {
    InRegion(w, mass, Inclusive) || InRegion(w, mass, Sideband)
  }

  /** `a` is an associate of trigger `t`: inside the associate window, of lower
      pT than the trigger by at least MinPtGap, and not of the same flavor sign. */
  function IsAssociate(cuts: Cuts, t: Candidate, a: Candidate): (b: bool)
    ensures b <==> && cuts.pt2min <= a.pt <= cuts.pt2max
                   && -cuts.yd <= a.y <= cuts.yd
                   && a.pt <= t.pt - MinPtGap
                   && ((a.flavor <= 0.0 && 0.0 <= t.flavor) || (t.flavor <= 0.0 && 0.0 <= a.flavor))
  {
    && cuts.pt2min <= a.pt <= cuts.pt2max
    && Abs(a.y) <= cuts.yd
    && a.pt < t.pt
    && Abs(a.pt - t.pt) >= MinPtGap
    && a.flavor * t.flavor <= 0.0
  }

  /** What the pair rules exclude: self-pairs, same-sign pairs, pairs whose pT
      differ by less than MinPtGap, and the reversed order of an accepted pair. */
  lemma PairRules(cuts: Cuts, t: Candidate, a: Candidate)
    ensures !IsAssociate(cuts, t, t)
    ensures t.flavor * a.flavor > 0.0 ==> !IsAssociate(cuts, t, a)
    ensures t.pt - a.pt < MinPtGap ==> !IsAssociate(cuts, t, a)
    ensures IsAssociate(cuts, t, a) ==> !IsAssociate(cuts, a, t)
    ensures IsAssociate(cuts, t, a) ==> t.pt - a.pt >= MinPtGap
  {
  }
}
