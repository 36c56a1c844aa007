/** FetchIssues (internal/github/issues.go): list the open issues of every
    configured repository page by page, and report which repositories
    succeeded and which failed. The API is a parameter: for an organization
    and a repository it gives the answers of the successive list calls. */
module IssuesCollector {
  import opened Types
  import GitHub

  /** An issue as the list endpoint returns it, reduced to what FetchIssues
      reads. IsPullRequest stands for a non-nil PullRequestLinks. */
  datatype RawIssue = RawIssue(
    IsPullRequest: bool,
    Number: int,
    Title: string,
    HTMLURL: string,
    Login: string,
    AvatarURL: string,
    Association: Option<string>,
    CreatedAt: Time,
    UpdatedAt: Time,
    Labels: seq<GitHub.RawLabel>)

  datatype IssuesFetchResult = IssuesFetchResult(
    Issues: seq<Issue>,
    SucceededRepos: seq<string>,
    FailedRepos: seq<string>,
    Rate: RateInfo,
    Err: Option<GitHub.FetchError>)

  /** The dashboard's issue for an API issue of repository `repo`. */
  function ToIssue(repo: string, g: RawIssue): (i: Issue)
    ensures i.Repository == repo && i.Number == g.Number && i.Title == g.Title
    ensures i.Labels == GitHub.ToLabels(g.Labels)
    ensures (i.AuthorAssociation, i.IsExternal) == GitHub.Association(g.Association)
  {
    var (association, external) := GitHub.Association(g.Association);
    Issue(repo, g.Number, g.Title, g.HTMLURL, g.Login, g.AvatarURL, association, external,
          g.CreatedAt, g.UpdatedAt, GitHub.ToLabels(g.Labels))
  }

  /** Pull requests show up in the issues list and are skipped. */
  function IssueItems(repo: string, g: RawIssue): (r: seq<Issue>)
    ensures g.IsPullRequest <==> r == []
    ensures !g.IsPullRequest ==> r == [ToIssue(repo, g)]
  {
    if g.IsPullRequest then [] else [ToIssue(repo, g)]
  }

  /** The state of the repository loop: the paging progress, the two name
      lists, the success counter and (for the proofs) each attempted
      repository's failed flag. */
  datatype Acc = Acc(progress: GitHub.Progress<Issue>, succeeded: seq<string>, failed: seq<string>,
                     successCount: nat, marks: seq<bool>)

  const Start := Acc(GitHub.Progress([], ZeroRate, 0), [], [], 0, [])

  /** The repository loop from the i-th repository on; the context is checked
      before each repository. */
  function Repos(org: string, repos: seq<RepositoryConfig>, api: (string, string) -> seq<GitHub.Response<RawIssue>>,
                 cancel: GitHub.Cancel, i: nat, acc: Acc): Acc
    decreases |repos| - i
  {
    if i >= |repos| || GitHub.Cancelled(cancel, acc.progress.calls) then acc
    else
      var name := repos[i].Name;
      var o := GitHub.Pages(IssueItems, name, api(org, name), 0, acc.progress, cancel);
      Repos(org, repos, api, cancel, i + 1, Record(acc, name, o))
  }

  /** A repository's outcome recorded: its name among the failed or the
      succeeded, its flag among the marks. */
  function Record(acc: Acc, name: string, o: GitHub.RepoOutcome<Issue>): Acc
  {
    if o.failed then Acc(o.progress, acc.succeeded, acc.failed + [name], acc.successCount, acc.marks + [true])
    else Acc(o.progress, acc.succeeded + [name], acc.failed, acc.successCount + 1, acc.marks + [false])
  }

  /** The failed list with the names of repos[from..] appended. */
  function WithNotAttempted(repos: seq<RepositoryConfig>, failed: seq<string>, from: nat): seq<string>
  {
    failed + if from >= |repos| then [] else Names(repos[from..])
  }

  /** After the loop: repositories never attempted are failed, and the error
      is set when nothing succeeded although something was configured. */
  function Finish(repos: seq<RepositoryConfig>, cancel: GitHub.Cancel, progress: GitHub.Progress<Issue>,
                  succeeded: seq<string>, failed: seq<string>, successCount: nat): IssuesFetchResult
  {
    IssuesFetchResult(progress.items, succeeded, WithNotAttempted(repos, failed, |succeeded| + |failed|),
                      progress.rate, ErrorFor(|repos|, successCount, GitHub.Cancelled(cancel, progress.calls)))
  }

  /** The error of a fetch over `count` repositories: none when something
      succeeded or nothing was configured, else the context's error when it
      was cancelled, else "all N repos failed". */
  function ErrorFor(count: nat, successCount: nat, cancelled: bool): Option<GitHub.FetchError>
  {
    if successCount == 0 && count > 0 then
      Some(if cancelled then GitHub.ContextError else GitHub.AllReposFailed(count))
    else None
  }

  /** What FetchIssues returns. */
  function Fetch(org: string, repos: seq<RepositoryConfig>, api: (string, string) -> seq<GitHub.Response<RawIssue>>,
                 cancel: GitHub.Cancel): IssuesFetchResult
  {
    var acc := Repos(org, repos, api, cancel, 0, Start);
    Finish(repos, cancel, acc.progress, acc.succeeded, acc.failed, acc.successCount)
  }

  /** One API issue converted; the label loop is ConvertLabels. */
  method ConvertIssue(repo: string, g: RawIssue) returns (issue: Issue)
    ensures issue == ToIssue(repo, g)
  {
    issue := Issue(repo, g.Number, g.Title, g.HTMLURL, g.Login, g.AvatarURL, "", false, g.CreatedAt, g.UpdatedAt, []);
    if g.Association.Some? {
      issue := issue.(AuthorAssociation := g.Association.value, IsExternal := !GitHub.IsInternal(g.Association.value));
    }
    var labels := GitHub.ConvertLabels(g.Labels);
    issue := issue.(Labels := labels);
  }

  /** The paging loop of one repository. */
  method FetchRepo(repo: string, script: seq<GitHub.Response<RawIssue>>, p: GitHub.Progress<Issue>, cancel: GitHub.Cancel)
    returns (o: GitHub.RepoOutcome<Issue>)
    ensures o == GitHub.Pages(IssueItems, repo, script, 0, p, cancel)
  {
    var j := 0;
    var cur := p;
    while true
      invariant GitHub.Pages(IssueItems, repo, script, 0, p, cancel) == GitHub.Pages(IssueItems, repo, script, j, cur, cancel)
      decreases |script| - j
    {
      if GitHub.Cancelled(cancel, cur.calls) {
        return GitHub.RepoOutcome(cur, false);
      }
      if j >= |script| || script[j].ApiError? {
        return GitHub.RepoOutcome(cur.(calls := cur.calls + 1), true);
      }
      var page := script[j];
      var issues := cur.items;
      for k := 0 to |page.items|
        invariant issues == cur.items + GitHub.Convert(IssueItems, repo, page.items[..k])
      {
        var g := page.items[k];
        assert page.items[..k + 1][..k] == page.items[..k];
        if !g.IsPullRequest {
          var issue := ConvertIssue(repo, g);
          issues := issues + [issue];
        }
      }
      assert page.items[..|page.items|] == page.items;
      cur := GitHub.Progress(issues, page.rate, cur.calls + 1);
      if !page.more {
        return GitHub.RepoOutcome(cur, false);
      }
      j := j + 1;
    }
  }

  /** The repository loop of FetchIssues: configuration order, until the
      context is cancelled. */
  method RepoLoop(org: string, repos: seq<RepositoryConfig>, api: (string, string) -> seq<GitHub.Response<RawIssue>>,
                  cancel: GitHub.Cancel)
    returns (issues: seq<Issue>, rate: RateInfo, calls: nat, succeeded: seq<string>, failed: seq<string>, successCount: nat)
    ensures var acc := Repos(org, repos, api, cancel, 0, Start);
            && acc.progress == GitHub.Progress(issues, rate, calls)
            && acc.succeeded == succeeded && acc.failed == failed && acc.successCount == successCount
  {
    issues, rate, calls := [], ZeroRate, 0;
    succeeded, failed, successCount := [], [], 0;
    ghost var marks: seq<bool> := [];

    var i := 0;
    while i < |repos|
      invariant i <= |repos|
      invariant Repos(org, repos, api, cancel, 0, Start)
                == Repos(org, repos, api, cancel, i, Acc(GitHub.Progress(issues, rate, calls), succeeded, failed, successCount, marks))
    {
      if GitHub.Cancelled(cancel, calls) {
        break;
      }
      var name := repos[i].Name;
      var o := FetchRepo(name, api(org, name), GitHub.Progress(issues, rate, calls), cancel);
      issues, rate, calls := o.progress.items, o.progress.rate, o.progress.calls;
      if o.failed {
        failed := failed + [name];
        marks := marks + [true];
      } else {
        succeeded := succeeded + [name];
        successCount := successCount + 1;
        marks := marks + [false];
      }
      i := i + 1;
    }
  }

  /** The names of the repositories from index `attempted` on. */
  method NotAttempted(repos: seq<RepositoryConfig>, failed: seq<string>, attempted: nat) returns (all: seq<string>)
    ensures all == WithNotAttempted(repos, failed, attempted)
  {
    all := failed;
    var k := attempted;
    while k < |repos|
      invariant attempted < |repos| ==> attempted <= k <= |repos| && all == failed + Names(repos[attempted..k])
      invariant attempted >= |repos| ==> all == failed && k == attempted
      decreases |repos| - k
    {
      NamesSnoc(repos, attempted, k);
      all := all + [repos[k].Name];
      k := k + 1;
    }
    assert attempted < |repos| ==> repos[attempted..k] == repos[attempted..];
  }

  /** The error decision at the end of FetchIssues. */
  method DecideError(count: nat, successCount: nat, cancelled: bool) returns (err: Option<GitHub.FetchError>)
    ensures err == ErrorFor(count, successCount, cancelled)
  {
    err := None;
    if successCount == 0 && count > 0 {
      if cancelled {
        err := Some(GitHub.ContextError);
      } else {
        err := Some(GitHub.AllReposFailed(count));
      }
    }
  }

  /** The end of FetchIssues: the repositories left over are failed and the
      error is decided. */
  method Conclude(repos: seq<RepositoryConfig>, cancel: GitHub.Cancel, issues: seq<Issue>, rate: RateInfo, calls: nat,
                  succeeded: seq<string>, failed: seq<string>, successCount: nat)
    returns (result: IssuesFetchResult)
    ensures result == Finish(repos, cancel, GitHub.Progress(issues, rate, calls), succeeded, failed, successCount)
  {
    var allFailed := NotAttempted(repos, failed, |succeeded| + |failed|);
    var err := DecideError(|repos|, successCount, GitHub.Cancelled(cancel, calls));
    result := IssuesFetchResult(issues, succeeded, allFailed, rate, err);
    assert Finish(repos, cancel, GitHub.Progress(issues, rate, calls), succeeded, failed, successCount).FailedRepos == allFailed;
  }

  /** FetchIssues: the repository loop, then the repositories left over are
      failed and the error is decided. */
  method FetchIssues(org: string, repos: seq<RepositoryConfig>, api: (string, string) -> seq<GitHub.Response<RawIssue>>,
                     cancel: GitHub.Cancel)
    returns (result: IssuesFetchResult)
    ensures result == Fetch(org, repos, api, cancel)
  {
    var issues, rate, calls, succeeded, failed, successCount := RepoLoop(org, repos, api, cancel);
    result := Conclude(repos, cancel, issues, rate, calls, succeeded, failed, successCount);
  }

  lemma NamesSnoc(repos: seq<RepositoryConfig>, from: nat, k: nat)
    requires from <= k < |repos|
    ensures Names(repos[from..k + 1]) == Names(repos[from..k]) + [repos[k].Name]
  {
    var a := Names(repos[from..k + 1]);
    var b := Names(repos[from..k]) + [repos[k].Name];
    assert |a| == |b|;
    forall m | 0 <= m < |a| ensures a[m] == b[m] {
      assert repos[from..k + 1][m] == repos[from + m];
    }
  }

  // ---------------------------------------------------------------------
  // Properties

  /** The names of the repositories whose failed flag is `which`, in order. */
  function Select(names: seq<string>, marks: seq<bool>, which: bool): seq<string>
    requires |names| == |marks|
  {
    if names == [] then []
    else
      var n := |names| - 1;
      Select(names[..n], marks[..n], which) + (if marks[n] == which then [names[n]] else [])
  }

  lemma {:induction false} SelectSplits(names: seq<string>, marks: seq<bool>)
    requires |names| == |marks|
    ensures |Select(names, marks, false)| + |Select(names, marks, true)| == |names|
    ensures |Select(names, marks, false)| == multiset(marks)[false]
  {
    if names != [] {
      var n := |names| - 1;
      SelectSplits(names[..n], marks[..n]);
      assert marks == marks[..n] + [marks[n]];
    }
  }

  /** The repository loop's bookkeeping: the first |marks| repositories were
      attempted, each sorted by its flag, and only a cancellation stops the
      loop early. */
  lemma {:induction false} ReposBookkeeping(org: string, repos: seq<RepositoryConfig>,
                                            api: (string, string) -> seq<GitHub.Response<RawIssue>>,
                                            cancel: GitHub.Cancel, i: nat, acc: Acc)
    requires i == |acc.marks| <= |repos|
    requires acc.succeeded == Select(Names(repos)[..i], acc.marks, false)
    requires acc.failed == Select(Names(repos)[..i], acc.marks, true)
    requires acc.successCount == |acc.succeeded|
    ensures var r := Repos(org, repos, api, cancel, i, acc);
            && i <= |r.marks| <= |repos|
            && r.succeeded == Select(Names(repos)[..|r.marks|], r.marks, false)
            && r.failed == Select(Names(repos)[..|r.marks|], r.marks, true)
            && r.successCount == |r.succeeded|
            && (|r.marks| < |repos| ==> GitHub.Cancelled(cancel, r.progress.calls))
    decreases |repos| - i
  {
    if i < |repos| && !GitHub.Cancelled(cancel, acc.progress.calls) {
      var name := repos[i].Name;
      var o := GitHub.Pages(IssueItems, name, api(org, name), 0, acc.progress, cancel);
      var next := Record(acc, name, o);
      assert Names(repos)[i] == name;
      RecordBookkeeping(Names(repos), i, acc, o);
      ReposBookkeeping(org, repos, api, cancel, i + 1, next);
    }
  }

  lemma RecordBookkeeping(names: seq<string>, i: nat, acc: Acc, o: GitHub.RepoOutcome<Issue>)
    requires i == |acc.marks| < |names|
    requires acc.succeeded == Select(names[..i], acc.marks, false)
    requires acc.failed == Select(names[..i], acc.marks, true)
    requires acc.successCount == |acc.succeeded|
    ensures var r := Record(acc, names[i], o);
            && |r.marks| == i + 1
            && r.succeeded == Select(names[..i + 1], r.marks, false)
            && r.failed == Select(names[..i + 1], r.marks, true)
            && r.successCount == |r.succeeded|
  {
    SelectSnoc(names, i, acc.marks, o.failed, false);
    SelectSnoc(names, i, acc.marks, o.failed, true);
  }

  lemma SelectSnoc(names: seq<string>, i: nat, marks: seq<bool>, flag: bool, which: bool)
    requires i == |marks| < |names|
    ensures Select(names[..i + 1], marks + [flag], which)
            == Select(names[..i], marks, which) + (if flag == which then [names[i]] else [])
  {
    assert names[..i + 1][..i] == names[..i];
    assert (marks + [flag])[..i] == marks;
  }

  /** Every configured repository is reported exactly once: the attempted
      ones, in configuration order, among the succeeded or the failed
      according to their outcome, then all that were never attempted (only
      after a cancellation) among the failed. */
  lemma Partition(org: string, repos: seq<RepositoryConfig>, api: (string, string) -> seq<GitHub.Response<RawIssue>>,
                  cancel: GitHub.Cancel)
    ensures var acc := Repos(org, repos, api, cancel, 0, Start);
            var r := Fetch(org, repos, api, cancel);
            var m := |acc.marks|;
            && m <= |repos|
            && r.SucceededRepos == Select(Names(repos)[..m], acc.marks, false)
            && r.FailedRepos == Select(Names(repos)[..m], acc.marks, true) + Names(repos)[m..]
            && |r.SucceededRepos| + |r.FailedRepos| == |repos|
            && (m < |repos| ==> GitHub.Cancelled(cancel, acc.progress.calls))
  {
    ReposBookkeeping(org, repos, api, cancel, 0, Start);
    var acc := Repos(org, repos, api, cancel, 0, Start);
    var m := |acc.marks|;
    SelectSplits(Names(repos)[..m], acc.marks);
    NotAttemptedSuffix(repos, acc.failed, m);
    var r := Finish(repos, cancel, acc.progress, acc.succeeded, acc.failed, acc.successCount);
    assert r == Fetch(org, repos, api, cancel);
    assert r.SucceededRepos == Select(Names(repos)[..m], acc.marks, false);
    assert r.FailedRepos == Select(Names(repos)[..m], acc.marks, true) + Names(repos)[m..];
    assert |r.SucceededRepos| + |r.FailedRepos| == m + (|repos| - m);
  }

  lemma NotAttemptedSuffix(repos: seq<RepositoryConfig>, failed: seq<string>, m: nat)
    requires m <= |repos|
    ensures WithNotAttempted(repos, failed, m) == failed + Names(repos)[m..]
    ensures |WithNotAttempted(repos, failed, m)| == |failed| + |repos| - m
  {
    if m < |repos| {
      assert Names(repos[m..]) == Names(repos)[m..];
    }
  }

  /** The error rule: an error exactly when no repository succeeded and at
      least one was configured; it is the context's error when the context
      was cancelled, otherwise "all N repos failed" for the N configured. */
  lemma ErrorRule(org: string, repos: seq<RepositoryConfig>, api: (string, string) -> seq<GitHub.Response<RawIssue>>,
                  cancel: GitHub.Cancel)
    ensures var acc := Repos(org, repos, api, cancel, 0, Start);
            var r := Fetch(org, repos, api, cancel);
            && (r.Err.Some? <==> |r.SucceededRepos| == 0 && |repos| > 0)
            && (r.Err.Some? ==>
                  r.Err == if GitHub.Cancelled(cancel, acc.progress.calls) then Some(GitHub.ContextError)
                           else Some(GitHub.AllReposFailed(|repos|)))
  {
    ReposBookkeeping(org, repos, api, cancel, 0, Start);
  }

  /** Each produced issue belongs to a configured repository and carries its
      configured name. */
  lemma {:induction false} IssuesFromConfiguredRepos(org: string, repos: seq<RepositoryConfig>,
                                                    api: (string, string) -> seq<GitHub.Response<RawIssue>>,
                                                    cancel: GitHub.Cancel, i: nat, acc: Acc)
    requires forall x :: x in acc.progress.items ==> x.Repository in Names(repos)
    ensures forall x :: x in Repos(org, repos, api, cancel, i, acc).progress.items ==> x.Repository in Names(repos)
    decreases |repos| - i
  {
    if i < |repos| && !GitHub.Cancelled(cancel, acc.progress.calls) {
      var name := repos[i].Name;
      assert name == Names(repos)[i];
      var o := GitHub.Pages(IssueItems, name, api(org, name), 0, acc.progress, cancel);
      PagesRepository(name, api(org, name), 0, acc.progress, cancel, Names(repos));
      var next := Record(acc, name, o);
      IssuesFromConfiguredRepos(org, repos, api, cancel, i + 1, next);
    }
  }

  lemma {:induction false} PagesRepository(repo: string, script: seq<GitHub.Response<RawIssue>>, j: nat,
                                          p: GitHub.Progress<Issue>, cancel: GitHub.Cancel, names: seq<string>)
    requires repo in names
    requires forall x :: x in p.items ==> x.Repository in names
    ensures forall x :: x in GitHub.Pages(IssueItems, repo, script, j, p, cancel).progress.items ==> x.Repository in names
    decreases |script| - j
  {
    if !GitHub.Cancelled(cancel, p.calls) && j < |script| && script[j].Page? {
      ConvertRepository(repo, script[j].items);
      var next := GitHub.Progress(p.items + GitHub.Convert(IssueItems, repo, script[j].items), script[j].rate, p.calls + 1);
      if script[j].more {
        PagesRepository(repo, script, j + 1, next, cancel, names);
      }
    }
  }

  /** A page yields exactly its non-pull-request entries, in order, each
      under the repository's name. */
  lemma {:induction false} ConvertRepository(repo: string, items: seq<RawIssue>)
    ensures forall x :: x in GitHub.Convert(IssueItems, repo, items) ==> x.Repository == repo
    ensures forall x :: x in GitHub.Convert(IssueItems, repo, items) <==>
              exists g :: g in items && !g.IsPullRequest && x == ToIssue(repo, g)
  {
    if items != [] {
      var n := |items| - 1;
      ConvertRepository(repo, items[..n]);
      assert items == items[..n] + [items[n]];
    }
  }

  /** Without cancellation, when the first list call of every configured
      repository fails, all of them are failed and the error is "all N repos
      failed". */
  lemma AllFailing(org: string, repos: seq<RepositoryConfig>, api: (string, string) -> seq<GitHub.Response<RawIssue>>)
    requires |repos| > 0
    requires forall k :: 0 <= k < |repos| ==> |api(org, repos[k].Name)| == 0 || api(org, repos[k].Name)[0].ApiError?
    ensures Fetch(org, repos, api, GitHub.Never).Err == Some(GitHub.AllReposFailed(|repos|))
    ensures Fetch(org, repos, api, GitHub.Never).SucceededRepos == []
    ensures Fetch(org, repos, api, GitHub.Never).FailedRepos == Names(repos)
  {
    AllFailingFrom(org, repos, api, 0, Start);
    ReposBookkeeping(org, repos, api, GitHub.Never, 0, Start);
    var acc := Repos(org, repos, api, GitHub.Never, 0, Start);
    SelectAll(Names(repos), acc.marks);
    assert Names(repos)[..|repos|] == Names(repos);
  }

  lemma {:induction false} AllFailingFrom(org: string, repos: seq<RepositoryConfig>,
                                         api: (string, string) -> seq<GitHub.Response<RawIssue>>, i: nat, acc: Acc)
    requires i <= |repos|
    requires forall k :: 0 <= k < |repos| ==> |api(org, repos[k].Name)| == 0 || api(org, repos[k].Name)[0].ApiError?
    requires forall k :: 0 <= k < |acc.marks| ==> acc.marks[k]
    requires acc.successCount == 0
    ensures var r := Repos(org, repos, api, GitHub.Never, i, acc);
            r.successCount == 0 && forall k :: 0 <= k < |r.marks| ==> r.marks[k]
    decreases |repos| - i
  {
    if i < |repos| {
      var name := repos[i].Name;
      var o := GitHub.Pages(IssueItems, name, api(org, name), 0, acc.progress, GitHub.Never);
      assert o.failed;
      AllFailingFrom(org, repos, api, i + 1,
                     Acc(o.progress, acc.succeeded, acc.failed + [name], acc.successCount, acc.marks + [true]));
    }
  }

  lemma {:induction false} SelectAll(names: seq<string>, marks: seq<bool>)
    requires |names| == |marks|
    requires forall k :: 0 <= k < |marks| ==> marks[k]
    ensures Select(names, marks, true) == names
    ensures Select(names, marks, false) == []
  {
    if names != [] {
      var n := |names| - 1;
      SelectAll(names[..n], marks[..n]);
      assert names == names[..n] + [names[n]];
    }
  }
}
