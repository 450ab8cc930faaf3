/** Closed genomic intervals and the program's non-overlap arithmetic. */
module Intervals {

  /** `(start, end)`, both ends inclusive, as the program's `[start, end]` pairs. */
  type Interval = (int, int)

  /** Number of bases in `[a.0, a.1]`. */
  function Length(a: Interval): int
  {
    a.1 - a.0 + 1
  }

  /** The two closed intervals share at least one base. */
  predicate Overlaps(a: Interval, b: Interval)
  {
    a.0 <= b.1 && b.0 <= a.1
  }

  /** `a` lies inside `b`. */
  predicate Within(a: Interval, b: Interval)
  {
    b.0 <= a.0 && a.1 <= b.1
  }

  /** `get_non_overlapping_count(query, reference)`: the bases of `query`
      outside `reference`, counted on one side only; when `query` sticks out
      on both sides the start side is the one counted. */
  function NonOverlappingCount(query: Interval, reference: Interval): (n: int)
    ensures n >= 0
    ensures n == 0 <==> Within(query, reference)
    ensures Overlaps(query, reference) && query.0 <= query.1 ==> n < Length(query)
  {
    if query.0 < reference.0 then reference.0 - query.0
    else if query.1 > reference.1 then query.1 - reference.1
    else 0
  }

  /** Number of integers in `[lo, hi]`. */
  function Span(lo: int, hi: int): nat
  {
    if lo > hi then 0 else hi - lo + 1
  }

  function Min(a: int, b: int): int { if a <= b then a else b }

  function Max(a: int, b: int): int { if a >= b then a else b }

  /** Reference count, base by base: how many of `lo..hi` lie outside `r`. */
  function Uncovered(lo: int, hi: int, r: Interval): nat
    decreases hi - lo
  {
    if lo > hi then 0
    else (if r.0 <= lo <= r.1 then 0 else 1) + Uncovered(lo + 1, hi, r)
  }

  /** The uncovered bases are those before `r` plus those after it. */
  lemma {:induction false} UncoveredSplits(lo: int, hi: int, r: Interval)
    requires r.0 <= r.1
    ensures Uncovered(lo, hi, r) == Span(lo, Min(hi, r.0 - 1)) + Span(Max(lo, r.1 + 1), hi)
    decreases hi - lo
  {
    if lo <= hi {
      UncoveredSplits(lo + 1, hi, r);
    }
  }

  /** Where `query` sticks out of `reference` on at most one side, the
      program's count is exactly the number of uncovered bases. */
  lemma NonOverlapExactOneSided(query: Interval, reference: Interval)
    requires query.0 <= query.1 && reference.0 <= reference.1
    requires Overlaps(query, reference)
    requires !(query.0 < reference.0 && reference.1 < query.1)
    ensures NonOverlappingCount(query, reference) == Uncovered(query.0, query.1, reference)
  {
    UncoveredSplits(query.0, query.1, reference);
  }

  /** Where `reference` lies strictly inside `query`, only the start-side
      excess is counted and the end-side excess is missed. */
  lemma NonOverlapStraddling(query: Interval, reference: Interval)
    requires reference.0 <= reference.1
    requires query.0 < reference.0 && reference.1 < query.1
    ensures NonOverlappingCount(query, reference) == reference.0 - query.0
    ensures Uncovered(query.0, query.1, reference)
         == NonOverlappingCount(query, reference) + (query.1 - reference.1)
  {
    UncoveredSplits(query.0, query.1, reference);
  }

  /** With no overlap every base of `query` is uncovered, which is what the
      program's full-length fallback adds. */
  lemma NoOverlapAllUncovered(query: Interval, reference: Interval)
    requires query.0 <= query.1 && reference.0 <= reference.1
    requires !Overlaps(query, reference)
    ensures Uncovered(query.0, query.1, reference) == Length(query)
  {
    UncoveredSplits(query.0, query.1, reference);
  }

  /** Worked cases: an end-side and a start-side excess, and a reference strictly inside the query. */
  lemma NonOverlapExamples()
    ensures NonOverlappingCount((10, 20), (15, 25)) == 5
    ensures NonOverlappingCount((10, 20), (5, 15)) == 5
    ensures NonOverlappingCount((10, 20), (12, 18)) == 2
    ensures Uncovered(10, 20, (12, 18)) == 4
  {
    NonOverlapStraddling((10, 20), (12, 18));
  }
}
