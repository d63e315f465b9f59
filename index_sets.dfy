/** Counting the indices and index pairs that a loop visits and that satisfy
    a condition: the sets grow by at most one element per loop step. */
module IndexSets {

  /** The indices j in [0, n) that satisfy p. */
  function Below(n: int, p: int -> bool): set<int> {
    set j | 0 <= j < n && p(j)
  }

  /** One more step of a loop over j adds index n exactly when it satisfies p. */
  lemma BelowStep(n: int, p: int -> bool)
    requires 0 <= n
    ensures |Below(n + 1, p)| == |Below(n, p)| + (if p(n) then 1 else 0)
  {
    var before := Below(n, p);
    var added := if p(n) then {n} else {};
    assert Below(n + 1, p) == before + added;
    assert n !in before;
  }

  /** The pairs (j, l) in [0, size)² satisfying p that a nested loop over j
      and l visits before reaching j == n, l == m. */
  function PairsBefore(size: int, n: int, m: int, p: (int, int) -> bool): set<(int, int)> {
    set j, l | 0 <= j < size && 0 <= l < size && (j < n || (j == n && l < m)) && p(j, l) :: (j, l)
  }

  /** All pairs in [0, size)² satisfying p. */
  function AllPairs(size: int, p: (int, int) -> bool): (ps: set<(int, int)>)
    ensures ps == PairsBefore(size, size, 0, p)
  {
    set j, l | 0 <= j < size && 0 <= l < size && p(j, l) :: (j, l)
  }

  /** Visiting (n, m) adds that pair exactly when it satisfies p. */
  lemma PairsStep(size: int, n: int, m: int, p: (int, int) -> bool)
    requires 0 <= n < size && 0 <= m < size
    ensures |PairsBefore(size, n, m + 1, p)| == |PairsBefore(size, n, m, p)| + (if p(n, m) then 1 else 0)
  {
    var before := PairsBefore(size, n, m, p);
    var after := PairsBefore(size, n, m + 1, p);
    var added := if p(n, m) then {(n, m)} else {};
    forall q | q in after ensures q in before + added {
      if q != (n, m) {
        assert q.0 < n || (q.0 == n && q.1 < m);
      }
    }
    assert after == before + added;
    assert (n, m) !in before;
  }

  /** The last inner step of row n is followed by the first of row n + 1. */
  lemma NextRow(size: int, n: int, p: (int, int) -> bool)
    ensures PairsBefore(size, n + 1, 0, p) == PairsBefore(size, n, size, p)
  {
  }

  /** A row without pairs satisfying p adds nothing. */
  lemma EmptyRow(size: int, n: int, p: (int, int) -> bool)
    requires forall l :: 0 <= l < size ==> !p(n, l)
    ensures PairsBefore(size, n, size, p) == PairsBefore(size, n, 0, p)
  {
    forall q | q in PairsBefore(size, n, size, p) ensures q in PairsBefore(size, n, 0, p) {
      assert p(q.0, q.1);
    }
  }
}
