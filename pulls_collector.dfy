/** FetchPullRequests and fetchPRDetails (internal/github/pulls.go): list the
    open pull requests of every configured repository, and for each one
    reduce its reviews to one state per reviewer and count its check runs.
    The list endpoint is a parameter as for issues; what the detail calls of
    one pull request return is a parameter too. */
module PullsCollector {
  import opened Types
  import GitHub
  import Checks
  import Review

  // ---------------------------------------------------------------------
  // Reviews

  /** A review as the API returns it. */
  datatype RawReview = RawReview(State: string, Login: string, AvatarURL: string, SubmittedAt: Time)

  /** Reviews that only comment, or have no state, are ignored. */
  predicate Ignored(r: RawReview)
  {
    r.State == "" || r.State == "COMMENTED"
  }

  /** Reviews that set a reviewer's state. */
  predicate Counted(r: RawReview)
  {
    !Ignored(r) && r.State != "DISMISSED"
  }

  /** reviewMap and reviewTimes. */
  datatype Reviews = Reviews(reviewMap: map<string, Reviewer>, reviewTimes: map<string, Time>)

  /** reviewTimes[login], the zero time when absent. */
  function TimeOf(times: map<string, Time>, login: string): Time
  {
    if login in times then times[login] else ZeroTime
  }

  /** One review applied: ignored ones change nothing, a dismissal forgets
      the reviewer, any other review is taken when the reviewer has none yet
      or it was submitted strictly later than the one held. */
  function Step(s: Reviews, r: RawReview): Reviews
  {
    if Ignored(r) then s
    else if r.State == "DISMISSED" then Reviews(s.reviewMap - {r.Login}, s.reviewTimes - {r.Login})
    else if r.Login !in s.reviewMap || r.SubmittedAt > TimeOf(s.reviewTimes, r.Login) then
      Reviews(s.reviewMap[r.Login := Reviewer(r.Login, r.AvatarURL, r.State)], s.reviewTimes[r.Login := r.SubmittedAt])
    else s
  }

  /** The reviews applied in the order the pages list them. */
  function Reduce(reviews: seq<RawReview>): Reviews
  {
    if reviews == [] then Reviews(map[], map[])
    else Step(Reduce(reviews[..|reviews| - 1]), reviews[|reviews| - 1])
  }

  /** The review loop of fetchPRDetails, over the reviews of all pages. */
  method ReduceReviews(reviews: seq<RawReview>) returns (reviewMap: map<string, Reviewer>, reviewTimes: map<string, Time>)
    ensures Reviews(reviewMap, reviewTimes) == Reduce(reviews)
  {
    reviewMap, reviewTimes := map[], map[];
    for k := 0 to |reviews|
      invariant Reviews(reviewMap, reviewTimes) == Reduce(reviews[..k])
    {
      var review := reviews[k];
      assert reviews[..k + 1][..k] == reviews[..k];
      var state := review.State;
      if state == "" || state == "COMMENTED" {
        continue;
      }
      var login := review.Login;
      if state == "DISMISSED" {
        reviewMap := reviewMap - {login};
        reviewTimes := reviewTimes - {login};
        continue;
      }
      var held := if login in reviewTimes then reviewTimes[login] else ZeroTime;
      if login !in reviewMap || review.SubmittedAt > held {
        reviewMap := reviewMap[login := Reviewer(login, review.AvatarURL, state)];
        reviewTimes := reviewTimes[login := review.SubmittedAt];
      }
    }
    assert reviews[..|reviews|] == reviews;
  }

  /** No dismissal by `login` after position k. */
  predicate NoDismissalAfter(reviews: seq<RawReview>, login: string, k: nat)
  {
    forall m :: k < m < |reviews| ==> !(reviews[m].Login == login && reviews[m].State == "DISMISSED")
  }

  /** No counted review by `login` after position k. */
  predicate NoCountedAfter(reviews: seq<RawReview>, login: string, k: nat)
  {
    forall m :: k < m < |reviews| ==> !(reviews[m].Login == login && Counted(reviews[m]))
  }

  /** Every reviewer held comes from one of their own counted reviews, with
      that review's state, avatar and time, and both maps hold the same logins. */
  lemma {:induction false} ReduceProvenance(reviews: seq<RawReview>)
    ensures var s := Reduce(reviews);
            && s.reviewMap.Keys == s.reviewTimes.Keys
            && forall l :: l in s.reviewMap ==>
                 exists k :: 0 <= k < |reviews| && Counted(reviews[k]) && reviews[k].Login == l
                             && s.reviewMap[l] == Reviewer(l, reviews[k].AvatarURL, reviews[k].State)
                             && s.reviewTimes[l] == reviews[k].SubmittedAt
  {
    if reviews != [] {
      var n := |reviews| - 1;
      var init := reviews[..n];
      ReduceProvenance(init);
      var s0 := Reduce(init);
      var s := Reduce(reviews);
      forall l | l in s.reviewMap
        ensures exists k :: 0 <= k < |reviews| && Counted(reviews[k]) && reviews[k].Login == l
                            && s.reviewMap[l] == Reviewer(l, reviews[k].AvatarURL, reviews[k].State)
                            && s.reviewTimes[l] == reviews[k].SubmittedAt
      {
        if l in s0.reviewMap && s.reviewMap[l] == s0.reviewMap[l] && TimeOf(s.reviewTimes, l) == TimeOf(s0.reviewTimes, l) {
          var k :| 0 <= k < |init| && Counted(init[k]) && init[k].Login == l
                   && s0.reviewMap[l] == Reviewer(l, init[k].AvatarURL, init[k].State)
                   && s0.reviewTimes[l] == init[k].SubmittedAt;
          assert reviews[k] == init[k];
        } else {
          assert Counted(reviews[n]) && reviews[n].Login == l;
        }
      }
    }
  }

  /** A reviewer's latest counted review with no dismissal after it keeps
      them in the map, at a time no earlier than that review's. */
  lemma {:induction false} ReduceKeepsLatest(reviews: seq<RawReview>, k: nat)
    requires k < |reviews| && Counted(reviews[k])
    requires NoDismissalAfter(reviews, reviews[k].Login, k)
    ensures reviews[k].Login in Reduce(reviews).reviewMap
    ensures TimeOf(Reduce(reviews).reviewTimes, reviews[k].Login) >= reviews[k].SubmittedAt
  {
    var n := |reviews| - 1;
    var init := reviews[..n];
    var login := reviews[k].Login;
    if k < n {
      assert init[k] == reviews[k];
      assert NoDismissalAfter(init, login, k) by {
        forall m | k < m < |init| ensures !(init[m].Login == login && init[m].State == "DISMISSED") {
          assert init[m] == reviews[m];
        }
      }
      ReduceKeepsLatest(init, k);
      ReduceKeysAgree(init);
    }
  }

  /** The two maps always hold the same logins. */
  lemma {:induction false} ReduceKeysAgree(reviews: seq<RawReview>)
    ensures Reduce(reviews).reviewMap.Keys == Reduce(reviews).reviewTimes.Keys
  {
    if reviews != [] {
      ReduceKeysAgree(reviews[..|reviews| - 1]);
    }
  }

  /** A dismissal with no counted review by the same reviewer after it
      removes the reviewer. */
  lemma {:induction false} ReduceForgetsDismissed(reviews: seq<RawReview>, k: nat)
    requires k < |reviews| && reviews[k].State == "DISMISSED"
    requires NoCountedAfter(reviews, reviews[k].Login, k)
    ensures reviews[k].Login !in Reduce(reviews).reviewMap
  {
    var n := |reviews| - 1;
    var init := reviews[..n];
    if k < n {
      assert init[k] == reviews[k];
      assert NoCountedAfter(init, reviews[k].Login, k) by {
        forall m | k < m < |init| ensures !(init[m].Login == reviews[k].Login && Counted(init[m])) {
          assert init[m] == reviews[m];
        }
      }
      ReduceForgetsDismissed(init, k);
    }
  }

  /** The reviewer list: every reviewer of the map once, in the map's
      (unspecified) iteration order, appended to `reviewers`. */
  method ListReviewers(reviewers: seq<Reviewer>, reviewMap: map<string, Reviewer>) returns (r: seq<Reviewer>)
    ensures |r| == |reviewers| + |reviewMap|
    ensures r[..|reviewers|] == reviewers
    ensures forall l :: l in reviewMap ==> reviewMap[l] in r[|reviewers|..]
    ensures forall x :: x in r[|reviewers|..] ==> exists l :: l in reviewMap && reviewMap[l] == x
  {
    var added := Enumerate(reviewMap);
    r := reviewers + added;
    assert r[..|reviewers|] == reviewers && r[|reviewers|..] == added;
  }

  /** The values of the map, one per key, in an unspecified order. */
  method Enumerate(reviewMap: map<string, Reviewer>) returns (added: seq<Reviewer>)
    ensures |added| == |reviewMap|
    ensures forall l :: l in reviewMap ==> reviewMap[l] in added
    ensures forall x :: x in added ==> exists l :: l in reviewMap && reviewMap[l] == x
  {
    added := [];
    var rest := reviewMap.Keys;
    ghost var seen: set<string> := {};
    while rest != {}
      invariant seen <= reviewMap.Keys && rest == reviewMap.Keys - seen
      invariant |added| == |seen|
      invariant forall l :: l in seen ==> reviewMap[l] in added
      invariant forall x :: x in added ==> exists l :: l in seen && reviewMap[l] == x
      decreases |rest|
    {
      var login :| login in rest;
      EnumerateStep(reviewMap, seen, added, login);
      added := added + [reviewMap[login]];
      rest := rest - {login};
      seen := seen + {login};
    }
    assert |seen| == |reviewMap.Keys| == |reviewMap|;
  }

  lemma EnumerateStep(reviewMap: map<string, Reviewer>, seen: set<string>, added: seq<Reviewer>, login: string)
    requires login in reviewMap && login !in seen && seen <= reviewMap.Keys
    requires |added| == |seen|
    requires forall l :: l in seen ==> reviewMap[l] in added
    requires forall x :: x in added ==> exists l :: l in seen && reviewMap[l] == x
    ensures var more, now := seen + {login}, added + [reviewMap[login]];
            && |now| == |more|
            && (forall l :: l in more ==> reviewMap[l] in now)
            && (forall x :: x in now ==> exists l :: l in more && reviewMap[l] == x)
  {
    var more, now := seen + {login}, added + [reviewMap[login]];
    forall x | x in now ensures exists l :: l in more && reviewMap[l] == x {
      if x in added {
        var l :| l in seen && reviewMap[l] == x;
        assert l in more;
      } else {
        assert reviewMap[login] == x;
      }
    }
  }

  // ---------------------------------------------------------------------
  // Check runs

  /** A check run as the API returns it. */
  datatype RawCheck = RawCheck(Name: string, Status: string, Conclusion: string, HTMLURL: string)

  /** The dashboard's checks: every run but the skipped ones, in order. */
  function KeptChecks(runs: seq<RawCheck>): seq<Check>
  {
    if runs == [] then []
    else
      var last := runs[|runs| - 1];
      KeptChecks(runs[..|runs| - 1])
      + (if last.Conclusion == "skipped" then [] else [Check(last.Name, last.Status, last.Conclusion, last.HTMLURL)])
  }

  /** How many of the checks ClassifyCheck puts in class `cls`. */
  function CountClass(checks: seq<Check>, cls: string): nat
  {
    if checks == [] then 0
    else
      var last := checks[|checks| - 1];
      CountClass(checks[..|checks| - 1], cls) + (if Checks.ClassifyCheck(last.Status, last.Conclusion) == cls then 1 else 0)
  }

  /** The check loop of fetchPRDetails over the runs of all pages: each run
      not skipped is appended and ticks exactly one counter, by the same
      rule as ClassifyCheck. */
  method TallyChecks(pr: PullRequest, runs: seq<RawCheck>) returns (r: PullRequest)
    ensures var kept := KeptChecks(runs);
            r == pr.(Checks := pr.Checks + kept,
                     ChecksRunning := pr.ChecksRunning + CountClass(kept, Checks.Running),
                     ChecksSuccess := pr.ChecksSuccess + CountClass(kept, Checks.Success),
                     ChecksFailure := pr.ChecksFailure + CountClass(kept, Checks.Failure))
  {
    var checks, running, success, failure := CountRuns(runs);
    r := pr.(Checks := pr.Checks + checks, ChecksRunning := pr.ChecksRunning + running,
             ChecksSuccess := pr.ChecksSuccess + success, ChecksFailure := pr.ChecksFailure + failure);
  }

  /** The checks kept from the runs and the three counts over them. */
  method CountRuns(runs: seq<RawCheck>) returns (checks: seq<Check>, running: nat, success: nat, failure: nat)
    ensures checks == KeptChecks(runs)
    ensures running == CountClass(checks, Checks.Running)
    ensures success == CountClass(checks, Checks.Success)
    ensures failure == CountClass(checks, Checks.Failure)
  {
    checks, running, success, failure := [], 0, 0, 0;
    for k := 0 to |runs|
      invariant checks == KeptChecks(runs[..k])
      invariant running == CountClass(checks, Checks.Running)
      invariant success == CountClass(checks, Checks.Success)
      invariant failure == CountClass(checks, Checks.Failure)
    {
      var check := runs[k];
      assert runs[..k + 1][..k] == runs[..k];
      if check.Conclusion == "skipped" {
        continue;
      }
      var c := Check(check.Name, check.Status, check.Conclusion, check.HTMLURL);
      assert KeptChecks(runs[..k + 1]) == checks + [c];
      assert (checks + [c])[..|checks|] == checks;
      assert check.Status in Checks.RunningStatuses <==>
             check.Status == "in_progress" || check.Status == "queued" || check.Status == "waiting" || check.Status == "pending";
      checks := checks + [c];
      if check.Status == "in_progress" || check.Status == "queued" || check.Status == "waiting" || check.Status == "pending" {
        running := running + 1;
      } else if check.Conclusion == "success" {
        success := success + 1;
      } else {
        failure := failure + 1;
      }
    }
    assert runs[..|runs|] == runs;
  }

  /** Skipped runs are left out and every other run is kept. */
  lemma {:induction false} KeptChecksExact(runs: seq<RawCheck>)
    ensures forall c :: c in KeptChecks(runs) ==> c.Conclusion != "skipped"
    ensures forall k :: 0 <= k < |runs| && runs[k].Conclusion != "skipped" ==>
              Check(runs[k].Name, runs[k].Status, runs[k].Conclusion, runs[k].HTMLURL) in KeptChecks(runs)
  {
    if runs != [] {
      var n := |runs| - 1;
      KeptChecksExact(runs[..n]);
      forall k | 0 <= k < n && runs[k].Conclusion != "skipped"
        ensures Check(runs[k].Name, runs[k].Status, runs[k].Conclusion, runs[k].HTMLURL) in KeptChecks(runs)
      {
        assert runs[..n][k] == runs[k];
      }
    }
  }

  /** The three counters add up to the number of checks shown. */
  lemma {:induction false} CountsAddUp(checks: seq<Check>)
    ensures CountClass(checks, Checks.Running) + CountClass(checks, Checks.Success)
            + CountClass(checks, Checks.Failure) == |checks|
  {
    if checks != [] {
      CountsAddUp(checks[..|checks| - 1]);
    }
  }

  // ---------------------------------------------------------------------
  // fetchPRDetails

  /** What the detail calls of one pull request return: the reviews of all
      review pages (None when a review page fails or the context is
      cancelled while paging), the full pull request (None when that call
      fails), and the check runs of the pages fetched, with whether all
      pages came back. */
  datatype FullPR = FullPR(MergeableState: string, ReviewComments: int)
  datatype Details = Details(reviews: Option<seq<RawReview>>, full: Option<FullPR>,
                             checkRuns: seq<RawCheck>, checksComplete: bool)

  /** The pull request without what fetchPRDetails fills in. */
  function Strip(pr: PullRequest): PullRequest
  {
    pr.(ReviewStatus := "", Reviewers := [], MergeableState := "", ReviewComments := 0,
        Checks := [], ChecksSuccess := 0, ChecksFailure := 0, ChecksRunning := 0)
  }

  /** What fetchPRDetails leaves in r, starting from pr: nothing outside the
      detail fields changes; a failed review phase changes nothing; the
      reviewers of the reduced reviews are appended and the review status
      derived from them; a failed full-PR call stops there; otherwise the
      mergeable state and review comments are copied and the kept check runs
      appended and counted. */
  ghost predicate DetailsFilled(pr: PullRequest, d: Details, r: PullRequest)
  {
    && Strip(r) == Strip(pr)
    && (d.reviews.None? ==> r == pr)
    && (d.reviews.Some? ==>
          var s := Reduce(d.reviews.value);
          && r.ReviewStatus == Review.StatusOf(Review.StatesOf(s.reviewMap, s.reviewMap.Keys))
          && |r.Reviewers| == |pr.Reviewers| + |s.reviewMap|
          && r.Reviewers[..|pr.Reviewers|] == pr.Reviewers
          && (forall l :: l in s.reviewMap ==> s.reviewMap[l] in r.Reviewers[|pr.Reviewers|..])
          && (forall x :: x in r.Reviewers[|pr.Reviewers|..] ==> exists l :: l in s.reviewMap && s.reviewMap[l] == x))
    && (d.reviews.Some? && d.full.None? ==> r == pr.(ReviewStatus := r.ReviewStatus, Reviewers := r.Reviewers))
    && (d.reviews.Some? && d.full.Some? ==>
          var kept := KeptChecks(d.checkRuns);
          && r.MergeableState == d.full.value.MergeableState
          && r.ReviewComments == d.full.value.ReviewComments
          && r.Checks == pr.Checks + kept
          && r.ChecksRunning == pr.ChecksRunning + CountClass(kept, Checks.Running)
          && r.ChecksSuccess == pr.ChecksSuccess + CountClass(kept, Checks.Success)
          && r.ChecksFailure == pr.ChecksFailure + CountClass(kept, Checks.Failure))
  }

  /** fetchPRDetails: fill in reviewers and review status, then mergeable
      state and review comments, then the checks; at the first failing phase
      it returns an error, keeping what earlier phases wrote. */
  method FetchPRDetails(pr: PullRequest, d: Details) returns (r: PullRequest, failed: bool)
    ensures DetailsFilled(pr, d, r)
    ensures failed <==> d.reviews.None? || d.full.None? || !d.checksComplete
  {
    r := pr;
    if d.reviews.None? {
      return r, true;
    }
    var reviewMap, reviewTimes := ReduceReviews(d.reviews.value);
    var reviewers := ListReviewers(r.Reviewers, reviewMap);
    var status := Review.DeriveReviewStatus(reviewMap);
    r := r.(Reviewers := reviewers, ReviewStatus := status);

    if d.full.None? {
      return r, true;
    }
    r := r.(MergeableState := d.full.value.MergeableState, ReviewComments := d.full.value.ReviewComments);

    r := TallyChecks(r, d.checkRuns);
    failed := !d.checksComplete;
  }

  // ---------------------------------------------------------------------
  // FetchPullRequests

  /** A pull request as the list endpoint returns it, reduced to what
      FetchPullRequests reads. */
  datatype RawPR = RawPR(
    Number: int,
    Title: string,
    HTMLURL: string,
    Login: string,
    AvatarURL: string,
    Association: Option<string>,
    CreatedAt: Time,
    UpdatedAt: Time,
    Labels: seq<GitHub.RawLabel>,
    State: string,
    Draft: bool,
    BaseRef: string,
    HeadRef: string,
    Comments: int)

  /** The dashboard's pull request for an API one, before fetchPRDetails. */
  function ToPullRequest(repo: string, g: RawPR): (pr: PullRequest)
    ensures pr.Repository == repo && pr.Number == g.Number
    ensures pr.Labels == GitHub.ToLabels(g.Labels)
    ensures (pr.AuthorAssociation, pr.IsExternal) == GitHub.Association(g.Association)
    ensures Strip(pr) == pr
  {
    var (association, external) := GitHub.Association(g.Association);
    PullRequest(repo, g.Number, g.Title, g.HTMLURL, g.Login, g.AvatarURL, association, external,
                g.CreatedAt, g.UpdatedAt, GitHub.ToLabels(g.Labels), g.State, g.Draft, g.BaseRef, g.HeadRef,
                g.Comments, 0, "", "", [], [], 0, 0, 0)
  }

  /** Every pull request of a page is kept. */
  function PRItems(repo: string, g: RawPR): seq<PullRequest>
  {
    [ToPullRequest(repo, g)]
  }

  function StripAll(prs: seq<PullRequest>): (r: seq<PullRequest>)
    ensures |r| == |prs|
    ensures forall k :: 0 <= k < |prs| ==> r[k] == Strip(prs[k])
  {
    seq(|prs|, k requires 0 <= k < |prs| => Strip(prs[k]))
  }

  /** The repository loop: pull requests as the pages list them (detail
      fields aside), and the number of repositories that did not fail. */
  datatype Acc = Acc(progress: GitHub.Progress<PullRequest>, successCount: nat)

  const Start := Acc(GitHub.Progress([], ZeroRate, 0), 0)

  function Repos(org: string, repos: seq<RepositoryConfig>, api: (string, string) -> seq<GitHub.Response<RawPR>>,
                 cancel: GitHub.Cancel, i: nat, acc: Acc): Acc
    decreases |repos| - i
  {
    if i >= |repos| || GitHub.Cancelled(cancel, acc.progress.calls) then acc
    else
      var name := repos[i].Name;
      var o := GitHub.Pages(PRItems, name, api(org, name), 0, acc.progress, cancel);
      Repos(org, repos, api, cancel, i + 1, Acc(o.progress, if o.failed then acc.successCount else acc.successCount + 1))
  }

  /** The error FetchPullRequests returns: ctx.Err() when nothing succeeded
      although something was configured, which is nil unless the context was
      cancelled. */
  function ErrorOf(repos: seq<RepositoryConfig>, cancel: GitHub.Cancel, acc: Acc): Option<GitHub.FetchError>
  {
    if acc.successCount == 0 && |repos| > 0 && GitHub.Cancelled(cancel, acc.progress.calls) then Some(GitHub.ContextError)
    else None
  }

  /** One pull request: converted, its labels through the label loop, then
      its details. A failure of the details is only logged. */
  method ConvertPR(repo: string, g: RawPR, d: Details) returns (pr: PullRequest)
    ensures Strip(pr) == ToPullRequest(repo, g)
    ensures DetailsFilled(ToPullRequest(repo, g), d, pr)
  {
    pr := PullRequest(repo, g.Number, g.Title, g.HTMLURL, g.Login, g.AvatarURL, "", false, g.CreatedAt, g.UpdatedAt, [],
                      g.State, g.Draft, g.BaseRef, g.HeadRef, g.Comments, 0, "", "", [], [], 0, 0, 0);
    if g.Association.Some? {
      pr := pr.(AuthorAssociation := g.Association.value, IsExternal := !GitHub.IsInternal(g.Association.value));
    }
    var labels := GitHub.ConvertLabels(g.Labels);
    pr := pr.(Labels := labels);
    assert pr == ToPullRequest(repo, g);
    var failed;
    pr, failed := FetchPRDetails(pr, d);
  }

  /** Every pull request carries what fetchPRDetails made of its own
      details, on top of its listed fields. */
  ghost predicate Detailed(prs: seq<PullRequest>, details: (string, int) -> Details)
  {
    forall k :: 0 <= k < |prs| ==> DetailsFilled(Strip(prs[k]), details(prs[k].Repository, prs[k].Number), prs[k])
  }

  lemma DetailedSnoc(prs: seq<PullRequest>, pr: PullRequest, details: (string, int) -> Details)
    requires Detailed(prs, details)
    requires DetailsFilled(Strip(pr), details(pr.Repository, pr.Number), pr)
    ensures Detailed(prs + [pr], details)
  {
    forall k | 0 <= k < |prs| + 1
      ensures var q := (prs + [pr])[k]; DetailsFilled(Strip(q), details(q.Repository, q.Number), q)
    {
      if k < |prs| {
        assert (prs + [pr])[k] == prs[k];
      }
    }
  }

  /** The pull requests of one page, each converted with its details, after
      those collected before. */
  method ConvertPage(repo: string, items: seq<RawPR>, details: (string, int) -> Details, prs0: seq<PullRequest>)
    returns (prs: seq<PullRequest>)
    requires Detailed(prs0, details)
    ensures StripAll(prs) == StripAll(prs0) + GitHub.Convert(PRItems, repo, items)
    ensures Detailed(prs, details)
  {
    prs := prs0;
    for k := 0 to |items|
      invariant StripAll(prs) == StripAll(prs0) + GitHub.Convert(PRItems, repo, items[..k])
      invariant Detailed(prs, details)
    {
      var g := items[k];
      assert items[..k + 1][..k] == items[..k];
      var pr := ConvertPR(repo, g, details(repo, g.Number));
      DetailedSnoc(prs, pr, details);
      ghost var stripped := StripAll(prs);
      prs := prs + [pr];
      assert StripAll(prs) == stripped + [Strip(pr)];
    }
    assert items[..|items|] == items;
  }

  /** The paging loop of one repository. */
  method FetchRepo(repo: string, script: seq<GitHub.Response<RawPR>>, details: (string, int) -> Details,
                   prs0: seq<PullRequest>, p: GitHub.Progress<PullRequest>, cancel: GitHub.Cancel)
    returns (prs: seq<PullRequest>, o: GitHub.RepoOutcome<PullRequest>)
    requires p.items == StripAll(prs0)
    requires Detailed(prs0, details)
    ensures o == GitHub.Pages(PRItems, repo, script, 0, p, cancel)
    ensures o.progress.items == StripAll(prs)
    ensures Detailed(prs, details)
  {
    var j := 0;
    var cur := p;
    prs := prs0;
    while true
      invariant cur.items == StripAll(prs)
      invariant Detailed(prs, details)
      invariant GitHub.Pages(PRItems, repo, script, 0, p, cancel) == GitHub.Pages(PRItems, repo, script, j, cur, cancel)
      decreases |script| - j
    {
      if GitHub.Cancelled(cancel, cur.calls) {
        return prs, GitHub.RepoOutcome(cur, false);
      }
      if j >= |script| || script[j].ApiError? {
        return prs, GitHub.RepoOutcome(cur.(calls := cur.calls + 1), true);
      }
      var page := script[j];
      prs := ConvertPage(repo, page.items, details, prs);
      cur := GitHub.Progress(StripAll(prs), page.rate, cur.calls + 1);
      if !page.more {
        return prs, GitHub.RepoOutcome(cur, false);
      }
      j := j + 1;
    }
  }

  /** FetchPullRequests: every pull request listed, details fetched for each;
      the pull requests equal, detail fields aside, those the pages list,
      and the error is ErrorOf. */
  method FetchPullRequests(org: string, repos: seq<RepositoryConfig>, api: (string, string) -> seq<GitHub.Response<RawPR>>,
                           details: (string, int) -> Details, cancel: GitHub.Cancel)
    returns (allPRs: seq<PullRequest>, err: Option<GitHub.FetchError>)
    ensures var acc := Repos(org, repos, api, cancel, 0, Start);
            && StripAll(allPRs) == acc.progress.items
            && err == ErrorOf(repos, cancel, acc)
    ensures Detailed(allPRs, details)
  {
    allPRs := [];
    var progress := GitHub.Progress([], ZeroRate, 0);
    var successCount := 0;
    var i := 0;
    while i < |repos|
      invariant i <= |repos|
      invariant progress.items == StripAll(allPRs)
      invariant Detailed(allPRs, details)
      invariant Repos(org, repos, api, cancel, 0, Start) == Repos(org, repos, api, cancel, i, Acc(progress, successCount))
    {
      if GitHub.Cancelled(cancel, progress.calls) {
        break;
      }
      var name := repos[i].Name;
      var o;
      allPRs, o := FetchRepo(name, api(org, name), details, allPRs, progress, cancel);
      progress := o.progress;
      if !o.failed {
        successCount := successCount + 1;
      }
      i := i + 1;
    }
    ghost var acc := Repos(org, repos, api, cancel, 0, Start);
    assert acc == Acc(progress, successCount);
    if successCount == 0 && |repos| > 0 && GitHub.Cancelled(cancel, progress.calls) {
      err := Some(GitHub.ContextError);
    } else {
      err := None;
    }
  }

  // ---------------------------------------------------------------------
  // Properties of the repository loop

  /** Each repository adds at most one success, and a success once counted
      is never taken back. */
  lemma {:induction false} ReposSuccessBounded(org: string, repos: seq<RepositoryConfig>,
                                                  api: (string, string) -> seq<GitHub.Response<RawPR>>,
                                                  cancel: GitHub.Cancel, i: nat, acc: Acc)
    requires acc.successCount <= i <= |repos|
    ensures var r := Repos(org, repos, api, cancel, i, acc);
            r.successCount <= |repos|
            && (r.successCount == 0 ==> acc.successCount == 0)
    decreases |repos| - i
  {
    if i < |repos| && !GitHub.Cancelled(cancel, acc.progress.calls) {
      var name := repos[i].Name;
      var o := GitHub.Pages(PRItems, name, api(org, name), 0, acc.progress, cancel);
      ReposSuccessBounded(org, repos, api, cancel, i + 1,
                             Acc(o.progress, if o.failed then acc.successCount else acc.successCount + 1));
    }
  }

  /** Without cancellation FetchPullRequests never returns an error, even
      when every repository fails. */
  lemma NoErrorWithoutCancel(org: string, repos: seq<RepositoryConfig>, api: (string, string) -> seq<GitHub.Response<RawPR>>)
    ensures ErrorOf(repos, GitHub.Never, Repos(org, repos, api, GitHub.Never, 0, Start)) == None
  {
  }

  /** The error is the context's exactly when nothing succeeded, something
      was configured and the context was cancelled. */
  lemma ErrorRule(org: string, repos: seq<RepositoryConfig>, api: (string, string) -> seq<GitHub.Response<RawPR>>,
                  cancel: GitHub.Cancel)
    ensures var acc := Repos(org, repos, api, cancel, 0, Start);
            && (ErrorOf(repos, cancel, acc).Some? <==>
                  acc.successCount == 0 && |repos| > 0 && GitHub.Cancelled(cancel, acc.progress.calls))
            && acc.successCount <= |repos|
  {
    ReposSuccessBounded(org, repos, api, cancel, 0, Start);
  }

  /** A repository's pull requests are all kept, one per listed entry, under
      its name: nothing is filtered, whatever the detail calls return. */
  lemma {:induction false} EveryListedPRKept(repo: string, items: seq<RawPR>)
    ensures |GitHub.Convert(PRItems, repo, items)| == |items|
    ensures forall k :: 0 <= k < |items| ==> GitHub.Convert(PRItems, repo, items)[k] == ToPullRequest(repo, items[k])
  {
    if items != [] {
      var n := |items| - 1;
      EveryListedPRKept(repo, items[..n]);
      forall k | 0 <= k < |items|
        ensures GitHub.Convert(PRItems, repo, items)[k] == ToPullRequest(repo, items[k])
      {
        if k < n {
          assert items[..n][k] == items[k];
        }
      }
    }
  }
}
