/** The in-memory merge store (internal/storage/memory.go): the latest known
    records of each category, the time each category was last updated, and per
    repository the time of its last successful fetch. */
module Storage {
  import opened Types

  /** The category names RepoFetchTimes accepts (internal/storage/storage.go). */
  const CategoryIssues := "issues"
  const CategoryPRs := "prs"
  const CategoryChecks := "checks"

  // ---------------------------------------------------------------------
  // Specification functions

  /** The records whose repository is in `keep`, in their original order. */
  function Kept<T>(records: seq<T>, repoOf: T -> string, keep: set<string>): seq<T>
  {
    if records == [] then []
    else
      var last := records[|records| - 1];
      Kept(records[..|records| - 1], repoOf, keep) + (if repoOf(last) in keep then [last] else [])
  }

  /** The records of one repository, in their original order. */
  function RecordsOf<T>(records: seq<T>, repoOf: T -> string, repo: string): seq<T>
  {
    Kept(records, repoOf, {repo})
  }

  /** The repository of every record, in record order. */
  function RepoList<T>(records: seq<T>, repoOf: T -> string): (names: seq<string>)
    ensures |names| == |records|
    ensures forall i :: 0 <= i < |records| ==> names[i] == repoOf(records[i])
  {
    if records == [] then [] else RepoList(records[..|records| - 1], repoOf) + [repoOf(records[|records| - 1])]
  }

  /** Each distinct element once, at the place it first occurs. */
  function FirstOccurrences(xs: seq<string>): seq<string>
  {
    if xs == [] then []
    else
      var prefix := FirstOccurrences(xs[..|xs| - 1]);
      if xs[|xs| - 1] in prefix then prefix else prefix + [xs[|xs| - 1]]
  }

  predicate NoDuplicates(xs: seq<string>)
  {
    forall i, j :: 0 <= i < j < |xs| ==> xs[i] != xs[j]
  }

  /** The index at which x first occurs in xs. */
  function FirstIndex(xs: seq<string>, x: string): (k: nat)
    requires x in xs
    ensures k < |xs| && xs[k] == x && x !in xs[..k]
  {
    if xs[0] == x then 0 else 1 + FirstIndex(xs[1..], x)
  }

  /** `before` with every name in `names` set to `now`; other entries are
      left as they were. */
  function Stamp(before: map<string, Time>, names: set<string>, now: Time): (after: map<string, Time>)
    ensures after.Keys == before.Keys + names
  {
    map k | k in before.Keys + names :: if k in names then now else before[k]
  }

  // ---------------------------------------------------------------------
  // Properties of the specification functions

  lemma {:induction false} KeptAppend<T>(a: seq<T>, b: seq<T>, repoOf: T -> string, keep: set<string>)
    ensures Kept(a + b, repoOf, keep) == Kept(a, repoOf, keep) + Kept(b, repoOf, keep)
  {
    if b != [] {
      var b' := b[..|b| - 1];
      assert (a + b)[..|a + b| - 1] == a + b';
      KeptAppend(a, b', repoOf, keep);
    } else {
      assert a + b == a;
    }
  }

  /** Filtering twice is filtering by both sets. */
  lemma {:induction false} KeptKept<T>(records: seq<T>, repoOf: T -> string, a: set<string>, b: set<string>)
    ensures Kept(Kept(records, repoOf, a), repoOf, b) == Kept(records, repoOf, a * b)
  {
    if records != [] {
      var init := records[..|records| - 1];
      var last := records[|records| - 1];
      KeptKept(init, repoOf, a, b);
      var tail := if repoOf(last) in a then [last] else [];
      KeptAppend(Kept(init, repoOf, a), tail, repoOf, b);
      if repoOf(last) in a {
        assert Kept(tail, repoOf, b) == Kept([], repoOf, b) + (if repoOf(last) in b then [last] else []);
      }
    }
  }

  /** Kept only drops records: what it returns is a sub-multiset of its input. */
  lemma {:induction false} KeptSubMultiset<T>(records: seq<T>, repoOf: T -> string, keep: set<string>)
    ensures multiset(Kept(records, repoOf, keep)) <= multiset(records)
  {
    if records != [] {
      var init := records[..|records| - 1];
      var last := records[|records| - 1];
      KeptSubMultiset(init, repoOf, keep);
      assert records == init + [last];
      assert multiset(records) == multiset(init) + multiset{last};
    }
  }

  /** A record survives Kept exactly when its repository is kept. */
  lemma {:induction false} KeptMembers<T>(records: seq<T>, repoOf: T -> string, keep: set<string>, x: T)
    ensures x in Kept(records, repoOf, keep) <==> x in records && repoOf(x) in keep
  {
    if records != [] {
      var init := records[..|records| - 1];
      KeptMembers(init, repoOf, keep, x);
      assert records == init + [records[|records| - 1]];
    }
  }

  /** The merged sequence a Merge call stores. */
  function Merged<T>(oldRecords: seq<T>, newRecords: seq<T>, repoOf: T -> string, failed: set<string>): seq<T>
  {
    Kept(oldRecords, repoOf, failed) + newRecords
  }

  /** No data loss on partial failure: after a merge, a failed repository
      still has all the records it had, in their order, followed by any new
      records the call brought for it. */
  lemma MergeKeepsFailedRepo<T>(oldRecords: seq<T>, newRecords: seq<T>, repoOf: T -> string,
                                failed: set<string>, repo: string)
    requires repo in failed
    ensures RecordsOf(Merged(oldRecords, newRecords, repoOf, failed), repoOf, repo)
         == RecordsOf(oldRecords, repoOf, repo) + RecordsOf(newRecords, repoOf, repo)
  {
    KeptAppend(Kept(oldRecords, repoOf, failed), newRecords, repoOf, {repo});
    KeptKept(oldRecords, repoOf, failed, {repo});
    assert failed * {repo} == {repo};
  }

  /** Full replacement on success: a repository that is not listed as failed
      (succeeded, or not mentioned at all) has exactly the new records. */
  lemma MergeReplacesOtherRepos<T>(oldRecords: seq<T>, newRecords: seq<T>, repoOf: T -> string,
                                   failed: set<string>, repo: string)
    requires repo !in failed
    ensures RecordsOf(Merged(oldRecords, newRecords, repoOf, failed), repoOf, repo)
         == RecordsOf(newRecords, repoOf, repo)
  {
    KeptAppend(Kept(oldRecords, repoOf, failed), newRecords, repoOf, {repo});
    KeptKept(oldRecords, repoOf, failed, {repo});
    assert failed * {repo} == {};
    KeptNone(oldRecords, repoOf);
  }

  lemma {:induction false} KeptNone<T>(records: seq<T>, repoOf: T -> string)
    ensures Kept(records, repoOf, {}) == []
  {
    if records != [] {
      KeptNone(records[..|records| - 1], repoOf);
    }
  }

  lemma {:induction false} FirstOccurrencesDistinct(xs: seq<string>)
    ensures NoDuplicates(FirstOccurrences(xs))
    ensures forall x :: x in FirstOccurrences(xs) <==> x in xs
  {
    if xs != [] {
      var init := xs[..|xs| - 1];
      FirstOccurrencesDistinct(init);
      assert xs == init + [xs[|xs| - 1]];
    }
  }

  /** The names keep the order of their first occurrences. */
  lemma {:induction false} FirstOccurrencesOrdered(xs: seq<string>, i: nat, j: nat)
    requires i < j < |FirstOccurrences(xs)|
    ensures FirstOccurrences(xs)[i] in xs && FirstOccurrences(xs)[j] in xs
    ensures FirstIndex(xs, FirstOccurrences(xs)[i]) < FirstIndex(xs, FirstOccurrences(xs)[j])
  {
    var init := xs[..|xs| - 1];
    var last := xs[|xs| - 1];
    var f := FirstOccurrences(init);
    FirstOccurrencesDistinct(init);
    FirstOccurrencesDistinct(xs);
    assert xs == init + [last];
    if j < |f| {
      FirstOccurrencesOrdered(init, i, j);
      FirstIndexPrefix(init, last, f[i]);
      FirstIndexPrefix(init, last, f[j]);
    } else {
      assert FirstOccurrences(xs)[j] == last && last !in init;
      FirstIndexPrefix(init, last, f[i]);
      FirstIndexLast(init, last);
    }
  }

  lemma {:induction false} FirstIndexPrefix(init: seq<string>, last: string, x: string)
    requires x in init
    ensures x in init + [last] && FirstIndex(init + [last], x) == FirstIndex(init, x)
  {
    if init[0] != x {
      assert (init + [last])[1..] == init[1..] + [last];
      FirstIndexPrefix(init[1..], last, x);
    }
  }

  lemma {:induction false} FirstIndexLast(init: seq<string>, last: string)
    requires last !in init
    ensures FirstIndex(init + [last], last) == |init|
  {
    if init != [] {
      assert (init + [last])[1..] == init[1..] + [last];
      FirstIndexLast(init[1..], last);
    }
  }

  // ---------------------------------------------------------------------
  // Helpers of memory.go

  /** updateRepoTimes: set the time of every listed repository to now. */
  method UpdateRepoTimes(times: map<string, Time>, repos: seq<string>, now: Time) returns (updated: map<string, Time>)
    ensures updated == Stamp(times, (set r | r in repos), now)
  {
    updated := times;
    var i := 0;
    while i < |repos|
      invariant 0 <= i <= |repos|
      invariant updated == Stamp(times, (set r | r in repos[..i]), now)
    {
      assert repos[..i + 1] == repos[..i] + [repos[i]];
      updated := updated[repos[i] := now];
      i := i + 1;
    }
    assert repos[..i] == repos;
  }

  /** repoNamesFromIssues / repoNamesFromPRs / repoNamesFromChecks: the
      distinct repositories of the records, in first-occurrence order. */
  method RepoNamesFrom<T>(records: seq<T>, repoOf: T -> string) returns (names: seq<string>)
    ensures names == FirstOccurrences(RepoList(records, repoOf))
    ensures NoDuplicates(names)
    ensures forall r :: r in names <==> exists x :: x in records && repoOf(x) == r
  {
    var seen: set<string> := {};
    names := [];
    var i := 0;
    while i < |records|
      invariant 0 <= i <= |records|
      invariant names == FirstOccurrences(RepoList(records[..i], repoOf))
      invariant forall r :: r in seen <==> r in names
    {
      assert records[..i + 1][..i] == records[..i];
      var repo := repoOf(records[i]);
      if repo !in seen {
        seen := seen + {repo};
        names := names + [repo];
      }
      i := i + 1;
    }
    assert records[..i] == records;
    var all := RepoList(records, repoOf);
    FirstOccurrencesDistinct(all);
    forall r ensures r in names <==> exists x :: x in records && repoOf(x) == r {
      if r in names {
        var k :| 0 <= k < |all| && all[k] == r;
        assert records[k] in records;
      }
      if exists x :: x in records && repoOf(x) == r {
        var x :| x in records && repoOf(x) == r;
        var k :| 0 <= k < |records| && records[k] == x;
        assert all[k] == r;
      }
    }
  }

  /** toSet: the set of the listed names. */
  method ToSet(items: seq<string>) returns (s: set<string>)
    ensures s == set x | x in items
  {
    s := {};
    var i := 0;
    while i < |items|
      invariant 0 <= i <= |items|
      invariant s == set x | x in items[..i]
    {
      assert items[..i + 1] == items[..i] + [items[i]];
      s := s + {items[i]};
      i := i + 1;
    }
    assert items[..i] == items;
  }

  /** keepByRepo / keepPRsByRepo / keepChecksByRepo: the records of the
      repositories in keepSet, in their original order. */
  method KeepByRepo<T>(records: seq<T>, repoOf: T -> string, keepSet: set<string>) returns (kept: seq<T>)
    ensures kept == Kept(records, repoOf, keepSet)
  {
    kept := [];
    var i := 0;
    while i < |records|
      invariant 0 <= i <= |records|
      invariant kept == Kept(records[..i], repoOf, keepSet)
    {
      assert records[..i + 1][..i] == records[..i];
      if repoOf(records[i]) in keepSet {
        kept := kept + [records[i]];
      }
      i := i + 1;
    }
    assert records[..i] == records;
  }

  // ---------------------------------------------------------------------
  // The store

  class Memory {
    var issues: seq<Issue>
    var issuesTime: Time

    var pullRequests: seq<PullRequest>
    var prsTime: Time

    var branchChecks: seq<BranchCheck>
    var branchChecksTime: Time

    // Per-repo last-success timestamps
    var issueRepoTimes: map<string, Time>
    var prRepoTimes: map<string, Time>
    var checkRepoTimes: map<string, Time>

    /** New: an empty store with zero times. */
    constructor ()
      ensures issues == [] && pullRequests == [] && branchChecks == []
      ensures issuesTime == ZeroTime && prsTime == ZeroTime && branchChecksTime == ZeroTime
      ensures issueRepoTimes == map[] && prRepoTimes == map[] && checkRepoTimes == map[]
    {
      issues, pullRequests, branchChecks := [], [], [];
      issuesTime, prsTime, branchChecksTime := ZeroTime, ZeroTime, ZeroTime;
      issueRepoTimes, prRepoTimes, checkRepoTimes := map[], map[], map[];
    }

    method SetIssues(newIssues: seq<Issue>, now: Time)
      modifies this`issues, this`issuesTime, this`issueRepoTimes
      ensures issues == newIssues && issuesTime == now
      ensures issueRepoTimes == Stamp(old(issueRepoTimes), set i | i in newIssues :: i.Repository, now)
    {
      issues := newIssues;
      issuesTime := now;
      var names := RepoNamesFrom(newIssues, IssueRepo);
      issueRepoTimes := UpdateRepoTimes(issueRepoTimes, names, now);
      assert ((set r | r in names)) == (set i | i in newIssues :: i.Repository);
    }

    method GetIssues() returns (records: seq<Issue>, lastUpdate: Time)
      ensures records == issues && lastUpdate == issuesTime
    {
      records, lastUpdate := issues, issuesTime;
    }

    method SetPullRequests(prs: seq<PullRequest>, now: Time)
      modifies this`pullRequests, this`prsTime, this`prRepoTimes
      ensures pullRequests == prs && prsTime == now
      ensures prRepoTimes == Stamp(old(prRepoTimes), set p | p in prs :: p.Repository, now)
    {
      pullRequests := prs;
      prsTime := now;
      var names := RepoNamesFrom(prs, PullRequestRepo);
      prRepoTimes := UpdateRepoTimes(prRepoTimes, names, now);
      assert ((set r | r in names)) == (set p | p in prs :: p.Repository);
    }

    method GetPullRequests() returns (records: seq<PullRequest>, lastUpdate: Time)
      ensures records == pullRequests && lastUpdate == prsTime
    {
      records, lastUpdate := pullRequests, prsTime;
    }

    method SetBranchChecks(checks: seq<BranchCheck>, now: Time)
      modifies this`branchChecks, this`branchChecksTime, this`checkRepoTimes
      ensures branchChecks == checks && branchChecksTime == now
      ensures checkRepoTimes == Stamp(old(checkRepoTimes), set b | b in checks :: b.Repository, now)
    {
      branchChecks := checks;
      branchChecksTime := now;
      var names := RepoNamesFrom(checks, BranchCheckRepo);
      checkRepoTimes := UpdateRepoTimes(checkRepoTimes, names, now);
      assert ((set r | r in names)) == (set b | b in checks :: b.Repository);
    }

    method GetBranchChecks() returns (records: seq<BranchCheck>, lastUpdate: Time)
      ensures records == branchChecks && lastUpdate == branchChecksTime
    {
      records, lastUpdate := branchChecks, branchChecksTime;
    }

    method LastFetchTimes() returns (issuesAt: Time, prsAt: Time, checksAt: Time)
      ensures issuesAt == issuesTime && prsAt == prsTime && checksAt == branchChecksTime
    {
      issuesAt, prsAt, checksAt := issuesTime, prsTime, branchChecksTime;
    }

    /** MergeIssues: keep the old issues of the failed repositories, append the
        new ones, and stamp the succeeded repositories (if there are any). */
    method MergeIssues(newIssues: seq<Issue>, failedRepos: seq<string>, succeededRepos: seq<string>, now: Time)
      modifies this`issues, this`issuesTime, this`issueRepoTimes
      ensures issues == Merged(old(issues), newIssues, IssueRepo, (set r | r in failedRepos))
      ensures issuesTime == if |succeededRepos| > 0 then now else old(issuesTime)
      ensures issueRepoTimes == if |succeededRepos| > 0
                                then Stamp(old(issueRepoTimes), (set r | r in succeededRepos), now)
                                else old(issueRepoTimes)
    {
      var failed := ToSet(failedRepos);
      var merged := KeepByRepo(issues, IssueRepo, failed);
      merged := merged + newIssues;
      issues := merged;

      if |succeededRepos| > 0 {
        issuesTime := now;
        issueRepoTimes := UpdateRepoTimes(issueRepoTimes, succeededRepos, now);
      }
    }

    /** Two successive MergeIssues calls: a repository that succeeded in the
        first carries the second time if it succeeds again, and otherwise keeps
        the time of its last success; the issues are merged twice over. */
    method MergeIssuesTwice(first: seq<Issue>, failed1: seq<string>, succeeded1: seq<string>, t1: Time,
                            second: seq<Issue>, failed2: seq<string>, succeeded2: seq<string>, t2: Time,
                            repo: string)
      modifies this`issues, this`issuesTime, this`issueRepoTimes
      requires repo in succeeded1
      ensures repo in issueRepoTimes
      ensures repo in succeeded2 ==> issueRepoTimes[repo] == t2
      ensures repo !in succeeded2 ==> issueRepoTimes[repo] == t1
      ensures issuesTime == if |succeeded2| > 0 then t2 else t1
      ensures issues == Merged(Merged(old(issues), first, IssueRepo, (set r | r in failed1)),
                               second, IssueRepo, (set r | r in failed2))
    {
      MergeIssues(first, failed1, succeeded1, t1);
      assert repo in issueRepoTimes && issueRepoTimes[repo] == t1;
      MergeIssues(second, failed2, succeeded2, t2);
    }

    method MergePullRequests(prs: seq<PullRequest>, failedRepos: seq<string>, succeededRepos: seq<string>, now: Time)
      modifies this`pullRequests, this`prsTime, this`prRepoTimes
      ensures pullRequests == Merged(old(pullRequests), prs, PullRequestRepo, (set r | r in failedRepos))
      ensures prsTime == if |succeededRepos| > 0 then now else old(prsTime)
      ensures prRepoTimes == if |succeededRepos| > 0
                             then Stamp(old(prRepoTimes), (set r | r in succeededRepos), now)
                             else old(prRepoTimes)
    {
      var failed := ToSet(failedRepos);
      var merged := KeepByRepo(pullRequests, PullRequestRepo, failed);
      merged := merged + prs;
      pullRequests := merged;

      if |succeededRepos| > 0 {
        prsTime := now;
        prRepoTimes := UpdateRepoTimes(prRepoTimes, succeededRepos, now);
      }
    }

    method MergeBranchChecks(checks: seq<BranchCheck>, failedRepos: seq<string>, succeededRepos: seq<string>, now: Time)
      modifies this`branchChecks, this`branchChecksTime, this`checkRepoTimes
      ensures branchChecks == Merged(old(branchChecks), checks, BranchCheckRepo, (set r | r in failedRepos))
      ensures branchChecksTime == if |succeededRepos| > 0 then now else old(branchChecksTime)
      ensures checkRepoTimes == if |succeededRepos| > 0
                                then Stamp(old(checkRepoTimes), (set r | r in succeededRepos), now)
                                else old(checkRepoTimes)
    {
      var failed := ToSet(failedRepos);
      var merged := KeepByRepo(branchChecks, BranchCheckRepo, failed);
      merged := merged + checks;
      branchChecks := merged;

      if |succeededRepos| > 0 {
        branchChecksTime := now;
        checkRepoTimes := UpdateRepoTimes(checkRepoTimes, succeededRepos, now);
      }
    }

    /** The per-repository times kept for a category name. */
    ghost function TimesOf(category: string): map<string, Time>
      reads this
    {
      if category == CategoryIssues then issueRepoTimes
      else if category == CategoryPRs then prRepoTimes
      else if category == CategoryChecks then checkRepoTimes
      else map[]
    }

    /** RepoFetchTimes: the per-repository times of one category; any other
        category name gives an empty map. */
    method RepoFetchTimes(category: string) returns (times: map<string, Time>)
      ensures times == TimesOf(category)
      ensures category == CategoryIssues ==> times == issueRepoTimes
      ensures category == CategoryPRs ==> times == prRepoTimes
      ensures category == CategoryChecks ==> times == checkRepoTimes
      ensures category !in {CategoryIssues, CategoryPRs, CategoryChecks} ==> times == map[]
    {
      if category == CategoryIssues {
        times := issueRepoTimes;
      } else if category == CategoryPRs {
        times := prRepoTimes;
      } else if category == CategoryChecks {
        times := checkRepoTimes;
      } else {
        times := map[];
      }
    }
  }
}
