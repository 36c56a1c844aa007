/** Classification of one CI check run (internal/github/checks.go). */
module Checks {

  /** Statuses of a check that has not finished. */
  const RunningStatuses: set<string> := {"in_progress", "queued", "waiting", "pending"}

  const Running := "running"
  const Success := "success"
  const Failure := "failure"

  /** ClassifyCheck: an unfinished check is running whatever its conclusion;
      a finished one passed only when it concluded "success"; every other
      conclusion, known or not, is a failure. */
  function ClassifyCheck(status: string, conclusion: string): (r: string)
    ensures r == Running || r == Success || r == Failure
    ensures r == Running <==> status in RunningStatuses
    ensures r == Success <==> status !in RunningStatuses && conclusion == "success"
    ensures r == Failure <==> status !in RunningStatuses && conclusion != "success"
  {
    if status in RunningStatuses then Running
    else if conclusion == "success" then Success
    else Failure
  }

  /** Conclusions that once were treated apart are failures too. */
  lemma OtherConclusionsFail(conclusion: string)
    requires conclusion in {"failure", "timed_out", "cancelled", "action_required", "neutral", "stale", ""}
    ensures ClassifyCheck("completed", conclusion) == Failure
  {
  }
}
