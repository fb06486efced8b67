/** The scoring policy: points for the number of rows cleared by one lock. */
module Scoring {

  /** Points for clearing 0, 1, 2, 3 or 4 rows at once. */
  const LINE_POINTS: seq<nat> := [0, 100, 300, 500, 800]

  /** The table entry for n cleared rows, or 0 when n lies beyond the
      table (the `|| 0` fallback for an undefined entry). */
  function Points(n: nat): (p: nat)
    ensures p <= 800
    ensures p > 0 <==> 1 <= n <= 4
  {
    if n < |LINE_POINTS| then LINE_POINTS[n] else 0
  }

  /** Clearing more rows at once is worth strictly more, up to four rows,
      and always more than clearing them one lock at a time. */
  lemma PointsReward(m: nat, n: nat)
    requires 1 <= m < n <= 4
    ensures Points(m) < Points(n)
    ensures n * Points(1) < Points(n)
  {
  }
}
