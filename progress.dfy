/** The learning-progress tracker (updateLearningProgress): five steps labelled Start, 25%, 50%,
    75% and Complete; step n is shown completed when the percentage reaches (n - 1) * 25. */
module Progress {

  const StepCount: nat := 5

  /** Which of the five steps are marked completed for `percentage`. */
  function CompletedSteps(percentage: real): (r: seq<bool>)
    ensures |r| == StepCount
    ensures forall i, j :: 0 <= i <= j < |r| && r[j] ==> r[i]
    ensures r[0] <==> percentage >= 0.0
    ensures r[StepCount - 1] <==> percentage >= 100.0
  {
    seq(StepCount, n requires 0 <= n < StepCount => percentage >= 25.0 * n as real)
  }

  /** A higher percentage never un-completes a step. */
  lemma StepsMonotone(p: real, q: real, n: nat)
    requires p <= q && n < StepCount
    ensures CompletedSteps(p)[n] ==> CompletedSteps(q)[n]
  {
  }
}
