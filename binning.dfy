/** Index lookups of ddbar_savehist: the centrality band of an event and the
    detector-phi bin of a trigger candidate. Both are std::lower_bound searches
    whose unsigned result is decremented by one. */
module Binning {

  /** 2^32: arithmetic on `unsigned` wraps modulo this value. */
  const U32: int := 0x1_0000_0000

  /** What an `unsigned` holds after 0 - 1 wraps around. */
  const U32Max: int := U32 - 1

  /** Centrality band boundaries in percent (`centralities`). */
  const Centralities: seq<int> := [0, 30, 50, 80]

  /** Number of centrality bands (`nCentrality`). */
  const NCentrality: nat := |Centralities| - 1

  predicate Sorted(s: seq<real>) {
    forall i, j :: 0 <= i < j < |s| ==> s[i] <= s[j]
  }

  /** Conversion of a (small) signed value to `unsigned`. */
  function Unsigned(x: int): (u: int)
    ensures 0 <= u < U32
    ensures 0 <= x < U32 ==> u == x
    ensures -U32 <= x < 0 ==> u == x + U32
  {
    x % U32
  }

  /** std::lower_bound with the comparison `element < x`: the first position
      whose element is not below x. This is a linear scan; the binary search of
      std::lower_bound returns the same position on ranges partitioned by
      `element < x` (in particular on sorted ones), which is the only case in
      which its result is specified. */
  function LowerBound(s: seq<real>, x: real): (r: nat)
    ensures r <= |s|
    ensures forall i :: 0 <= i < r ==> s[i] < x
    ensures r < |s| ==> x <= s[r]
    ensures Sorted(s) ==> forall i :: r <= i < |s| ==> x <= s[i]
  {
    if |s| == 0 || !(s[0] < x) then 0 else 1 + LowerBound(s[1..], x)
  }

  /** The boundaries as the comparator sees them: converted to floating point. */
  function CentralityBoundsAsReal(): (b: seq<real>)
    ensures |b| == |Centralities|
    ensures forall i :: 0 <= i < |b| ==> b[i] == Centralities[i] as real
    ensures b == [0.0, 30.0, 50.0, 80.0] && Sorted(b)
  {
    seq(|Centralities|, i requires 0 <= i < |Centralities| => Centralities[i] as real)
  }

  /** `centralityID`: the band of an event whose centrality is given in
      half-percent units. The comparator tests `boundary < centrality / 2`, so a
      band's upper edge is inclusive; 0 is special-cased to band 0. */
  function CentralityID(centrality: int): (id: int)
    ensures centrality == 0 ==> id == 0
    ensures 0 < centrality <= 2 * Centralities[NCentrality] ==>
              0 <= id < NCentrality &&
              2 * Centralities[id] < centrality <= 2 * Centralities[id + 1]
    ensures centrality > 2 * Centralities[NCentrality] ==> id == NCentrality
    ensures centrality < 0 ==> id == U32Max
  {
    if centrality == 0 then 0
    else Unsigned(LowerBound(CentralityBoundsAsReal(), centrality as real / 2.0) - 1)
  }

  /** The detector-phi bin of `phi`: the signed difference
      `lower_bound(phis, phi) - begin - 1`, converted to `unsigned`. Bin k is
      the half-open interval (phis[k], phis[k+1]]; at or below phis[0] the
      difference is -1, which the conversion wraps to 2^32 - 1. */
  function PhiBin(phis: seq<real>, phi: real): (k: int)
    ensures 0 <= k < U32
    ensures |phis| == 0 || phi <= phis[0] ==> k == U32Max
    ensures |phis| < U32 && 0 < |phis| && phis[0] < phi ==>
              0 <= k < |phis| && phis[k] < phi && (k + 1 < |phis| ==> phi <= phis[k + 1])
    ensures |phis| < U32 && Sorted(phis) && 0 < |phis| && phis[|phis| - 1] < phi ==>
              k == |phis| - 1
  {
    Unsigned(LowerBound(phis, phi) - 1)
  }

  /** Within sorted boundaries the bracketing interval of phi is unique, so
      PhiBin picks exactly the k with phis[k] < phi <= phis[k+1]. */
  lemma PhiBinUnique(phis: seq<real>, phi: real, k: int)
    requires Sorted(phis) && |phis| < U32
    requires 0 <= k && k + 1 < |phis| && phis[k] < phi <= phis[k + 1]
    ensures PhiBin(phis, phi) == k
  {
    assert phis[0] <= phis[k];
  }

  /** The k-th detector-phi boundary, (-1 + k/4)·pi. */
  function DetectorPhiBound(pi: real, k: int): (b: real)
    ensures pi > 0.0 && k < 4 ==> b < 0.0
    ensures pi > 0.0 && k > 4 ==> b > 0.0
  {
    (-1.0 + k as real * 0.25) * pi
  }

  /** The nine boundaries built by `push_back` in the source: eight bins of
      width pi/4 from -pi to pi. */
  method DetectorPhiBounds(pi: real) returns (phis: seq<real>)
    ensures |phis| == 9
    ensures forall i :: 0 <= i < 9 ==> phis[i] == DetectorPhiBound(pi, i)
    ensures phis[0] == -pi && phis[8] == pi
    ensures forall i :: 0 <= i < 8 ==> phis[i + 1] - phis[i] == pi / 4.0
  {
    phis := [];
    var i := 0;
    while i <= 8
      invariant 0 <= i <= 9
      invariant |phis| == i
      invariant forall k :: 0 <= k < i ==> phis[k] == DetectorPhiBound(pi, k)
    {
      phis := phis + [(-1.0 + i as real * 0.25) * pi];
      i := i + 1;
    }
  }

  /** For pi > 0 the detector boundaries are strictly increasing. */
  lemma {:induction false} DetectorBoundsIncreasing(pi: real, i: int, j: int)
    requires pi > 0.0 && i < j
    ensures DetectorPhiBound(pi, i) < DetectorPhiBound(pi, j)
  {
    assert DetectorPhiBound(pi, j) - DetectorPhiBound(pi, i) == (j - i) as real * (0.25 * pi);
  }

  /** Every azimuthal angle in (-pi, pi] falls in one of the eight detector
      bins: with the boundaries the source builds, the unsigned underflow and
      the past-the-end bin cannot occur. */
  lemma DetectorBinInRange(pi: real, phis: seq<real>, phi: real)
    requires pi > 0.0 && |phis| == 9
    requires forall i :: 0 <= i < 9 ==> phis[i] == DetectorPhiBound(pi, i)
    requires -pi < phi <= pi
    ensures 0 <= PhiBin(phis, phi) < 8
    ensures phis[PhiBin(phis, phi)] < phi <= phis[PhiBin(phis, phi) + 1]
  {
    forall i, j | 0 <= i < j < |phis| ensures phis[i] <= phis[j] {
      DetectorBoundsIncreasing(pi, i, j);
    }
    assert Sorted(phis);
    assert phis[0] == -pi && phis[8] == pi;
  }
}
