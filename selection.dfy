/**
 * The "first strict maximum" scan the agent runs over start nodes, thief
 * hexes and build actions: a running best score that starts at minus
 * infinity and is replaced only by a strictly greater score.
 */
module Selection {
  import opened Wrappers

  /** `k` indexes a maximal score, and every earlier score is strictly smaller. */
  predicate IsFirstMax(scores: seq<real>, k: int) {
    && 0 <= k < |scores|
    && (forall j :: 0 <= j < |scores| ==> scores[j] <= scores[k])
    && (forall j :: 0 <= j < k ==> scores[j] < scores[k])
  }

  /** The first strict maximum is unique, so the scan's tie-break is deterministic. */
  lemma FirstMaxUnique(scores: seq<real>, k1: int, k2: int)
    requires IsFirstMax(scores, k1) && IsFirstMax(scores, k2)
    ensures k1 == k2
  {
    assert scores[k1] <= scores[k2] && scores[k2] <= scores[k1];
  }

  /**
   * The scan itself. `None` for the running best stands for the initial
   * `float('-inf')`: every finite score beats it.
   */
  method FirstBestIndex(scores: seq<real>) returns (best: Option<nat>)
    ensures best.None? <==> |scores| == 0
    ensures best.Some? ==> IsFirstMax(scores, best.value)
  {
    best := None;
    var bestScore: real := 0.0;
    for i := 0 to |scores|
      invariant best.None? <==> i == 0
      invariant best.Some? ==> best.value < i && bestScore == scores[best.value]
      invariant best.Some? ==> forall j :: 0 <= j < i ==> scores[j] <= bestScore
      invariant best.Some? ==> forall j :: 0 <= j < best.value ==> scores[j] < bestScore
    {
      if best.None? || scores[i] > bestScore {
        best := Some(i);
        bestScore := scores[i];
      }
    }
  }
}
