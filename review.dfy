/** The aggregate review status of a pull request (internal/github/review.go). */
module Review {
  import opened Types

  const ChangesRequested := "changes_requested"
  const Approved := "approved"
  const Pending := "pending"

  /** The review states present among the reviewers whose logins are in `keys`. */
  function StatesOf(reviewers: map<string, Reviewer>, keys: set<string>): set<string>
  {
    set l | l in keys && l in reviewers :: reviewers[l].State
  }

  /** The status a set of review states stands for: any change request wins,
      then any approval, else pending. */
  function StatusOf(states: set<string>): (r: string)
    ensures r == ChangesRequested <==> "CHANGES_REQUESTED" in states
    ensures r == Approved <==> "CHANGES_REQUESTED" !in states && "APPROVED" in states
    ensures r == Pending <==> "CHANGES_REQUESTED" !in states && "APPROVED" !in states
  {
    if "CHANGES_REQUESTED" in states then ChangesRequested
    else if "APPROVED" in states then Approved
    else Pending
  }

  /** DeriveReviewStatus: visits the reviewers in an arbitrary order and stops
      at the first change request; the result depends only on the set of
      states, not on the visiting order. */
  method DeriveReviewStatus(reviewers: map<string, Reviewer>) returns (status: string)
    ensures status == StatusOf(StatesOf(reviewers, reviewers.Keys))
  {
    status := Pending;
    var rest := reviewers.Keys;
    ghost var seen: set<string> := {};
    while rest != {}
      invariant rest + seen == reviewers.Keys && rest !! seen
      invariant "CHANGES_REQUESTED" !in StatesOf(reviewers, seen)
      invariant status == (if "APPROVED" in StatesOf(reviewers, seen) then Approved else Pending)
      decreases |rest|
    {
      var login :| login in rest;
      var state := reviewers[login].State;
      assert StatesOf(reviewers, seen + {login}) == StatesOf(reviewers, seen) + {state};
      if state == "CHANGES_REQUESTED" {
        assert state in StatesOf(reviewers, reviewers.Keys);
        return ChangesRequested;
      } else if state == "APPROVED" {
        status := Approved;
      }
      rest := rest - {login};
      seen := seen + {login};
    }
  }

  /** Adding a reviewer's state can only raise the status: a change request
      is never outweighed by approvals. */
  lemma StatusMonotone(states: set<string>, more: set<string>)
    ensures StatusOf(states) == ChangesRequested ==> StatusOf(states + more) == ChangesRequested
    ensures StatusOf(states) == Approved ==> StatusOf(states + more) != Pending
  {
  }
}
