/** Configuration and its validation (internal/config/config.go). Loading
    the YAML file is not part of this model. */
module Config {
  import opened Types
  import Strings

  datatype GitHubConfig = GitHubConfig(Organization: string, Repositories: seq<RepositoryConfig>)

  /** Polling intervals, as durations. */
  datatype FetchIntervalsConfig = FetchIntervalsConfig(Issues: Time, PullRequests: Time, Actions: Time)

  datatype ServerConfig = ServerConfig(Port: int, Host: string)

  datatype Config = Config(GitHub: GitHubConfig, FetchIntervals: FetchIntervalsConfig, Server: ServerConfig)

  const MinPort := 1
  const MaxPort := 65535

  /** What a usable configuration looks like. */
  predicate IsValid(c: Config)
  {
    && c.GitHub.Organization != ""
    && |c.GitHub.Repositories| > 0
    && (forall i :: 0 <= i < |c.GitHub.Repositories| ==>
          c.GitHub.Repositories[i].Name != "" && |c.GitHub.Repositories[i].Branches| > 0)
    && c.FetchIntervals.Issues > 0
    && c.FetchIntervals.PullRequests > 0
    && c.FetchIntervals.Actions > 0
    && MinPort <= c.Server.Port <= MaxPort
  }

  /** One failed check. */
  datatype Problem =
    | OrgMissing
    | NoRepositories
    | NameMissing(index: nat)
    | BranchesMissing(index: nat, name: string)
    | IssuesIntervalInvalid
    | PullsIntervalInvalid
    | ActionsIntervalInvalid
    | PortInvalid(port: int)

  /** The text Validate reports for a problem. */
  function Message(p: Problem): string
  {
    match p
    case OrgMissing => "github.organization is required"
    case NoRepositories => "at least one repository is required"
    case NameMissing(i) => "repository[" + Strings.IntToString(i) + "].name is required"
    case BranchesMissing(i, name) =>
      "repository[" + Strings.IntToString(i) + "] (" + name + ") needs at least one branch"
    case IssuesIntervalInvalid => "fetch_intervals.issues must be > 0"
    case PullsIntervalInvalid => "fetch_intervals.pull_requests must be > 0"
    case ActionsIntervalInvalid => "fetch_intervals.actions must be > 0"
    case PortInvalid(port) => "server.port must be 1-65535, got " + Strings.IntToString(port)
  }

  function Messages(ps: seq<Problem>): (ms: seq<string>)
    ensures |ms| == |ps|
    ensures forall k :: 0 <= k < |ps| ==> ms[k] == Message(ps[k])
  {
    if ps == [] then [] else Messages(ps[..|ps| - 1]) + [Message(ps[|ps| - 1])]
  }

  /** ps, with p added when the check failed. */
  function AddIf(ps: seq<Problem>, failed: bool, p: Problem): seq<Problem>
  {
    if failed then ps + [p] else ps
  }

  /** The problems of repository i, appended to ps. */
  function RepoMessages(ps: seq<Problem>, i: nat, repo: RepositoryConfig): seq<Problem>
  {
    AddIf(AddIf(ps, repo.Name == "", NameMissing(i)), |repo.Branches| == 0, BranchesMissing(i, repo.Name))
  }

  /** The problems of the first n repositories, in index order, appended to ps. */
  function RepoProblems(ps: seq<Problem>, repos: seq<RepositoryConfig>, n: nat): seq<Problem>
    requires n <= |repos|
  {
    if n == 0 then ps else RepoMessages(RepoProblems(ps, repos, n - 1), n - 1, repos[n - 1])
  }

  function HeadProblems(c: Config): seq<Problem>
  {
    AddIf(AddIf([], c.GitHub.Organization == "", OrgMissing), |c.GitHub.Repositories| == 0, NoRepositories)
  }

  function TailProblems(c: Config, ps: seq<Problem>): seq<Problem>
  {
    var ps1 := AddIf(ps, c.FetchIntervals.Issues <= 0, IssuesIntervalInvalid);
    var ps2 := AddIf(ps1, c.FetchIntervals.PullRequests <= 0, PullsIntervalInvalid);
    var ps3 := AddIf(ps2, c.FetchIntervals.Actions <= 0, ActionsIntervalInvalid);
    AddIf(ps3, c.Server.Port < MinPort || c.Server.Port > MaxPort, PortInvalid(c.Server.Port))
  }

  /** Every failed check, in the order the checks run. */
  function Problems(c: Config): seq<Problem>
  {
    TailProblems(c, RepoProblems(HeadProblems(c), c.GitHub.Repositories, |c.GitHub.Repositories|))
  }

  /** The messages separated by "; ". */
  function Join(errs: seq<string>): string
    requires |errs| > 0
  {
    if |errs| == 1 then errs[0] else errs[0] + "; " + Join(errs[1..])
  }

  lemma {:induction false} JoinSnoc(errs: seq<string>, e: string)
    requires |errs| > 0
    ensures Join(errs + [e]) == Join(errs) + "; " + e
  {
    if |errs| > 1 {
      assert (errs + [e])[1..] == errs[1..] + [e];
      JoinSnoc(errs[1..], e);
    }
  }

  /** joinErrors: the messages joined with "; "; one message is returned as it is. */
  method JoinErrors(errs: seq<string>) returns (result: string)
    requires |errs| > 0
    ensures result == Join(errs)
    ensures |errs| == 1 ==> result == errs[0]
  {
    result := errs[0];
    var i := 1;
    while i < |errs|
      invariant 1 <= i <= |errs|
      invariant result == Join(errs[..i])
    {
      JoinSnoc(errs[..i], errs[i]);
      assert errs[..i + 1] == errs[..i] + [errs[i]];
      result := result + "; " + errs[i];
      i := i + 1;
    }
    assert errs[..i] == errs;
  }

  /** Validate: None when the configuration is usable, otherwise the message
      of every problem found, joined with "; ". */
  method Validate(c: Config) returns (err: Option<string>)
    ensures err.None? <==> IsValid(c)
    ensures err.Some? ==> |Problems(c)| > 0 && err.value == Join(Messages(Problems(c)))
  {
    var errs: seq<Problem> := [];

    if c.GitHub.Organization == "" {
      errs := errs + [OrgMissing];
    }
    if |c.GitHub.Repositories| == 0 {
      errs := errs + [NoRepositories];
    }
    var repos := c.GitHub.Repositories;
    for i := 0 to |repos|
      invariant errs == RepoProblems(HeadProblems(c), repos, i)
    {
      if repos[i].Name == "" {
        errs := errs + [NameMissing(i)];
      }
      if |repos[i].Branches| == 0 {
        errs := errs + [BranchesMissing(i, repos[i].Name)];
      }
    }

    if c.FetchIntervals.Issues <= 0 {
      errs := errs + [IssuesIntervalInvalid];
    }
    if c.FetchIntervals.PullRequests <= 0 {
      errs := errs + [PullsIntervalInvalid];
    }
    if c.FetchIntervals.Actions <= 0 {
      errs := errs + [ActionsIntervalInvalid];
    }

    if c.Server.Port < MinPort || c.Server.Port > MaxPort {
      errs := errs + [PortInvalid(c.Server.Port)];
    }

    assert errs == Problems(c);
    ProblemsEmptyIffValid(c);
    if |errs| > 0 {
      var joined := JoinErrors(Messages(errs));
      return Some(joined);
    }
    return None;
  }

  // ---------------------------------------------------------------------
  // Properties

  lemma InPrefix(x: Problem, a: seq<Problem>, b: seq<Problem>)
    requires x in a && a <= b
    ensures x in b
  {
    var k :| 0 <= k < |a| && a[k] == x;
    assert b[k] == x;
  }

  /** Checks only ever add problems, after the ones found before. */
  lemma {:induction false} RepoProblemsPrefix(ps: seq<Problem>, repos: seq<RepositoryConfig>, m: nat, n: nat)
    requires m <= n <= |repos|
    ensures RepoProblems(ps, repos, m) <= RepoProblems(ps, repos, n)
    ensures |RepoProblems(ps, repos, n)| == |RepoProblems(ps, repos, m)| <==>
            forall i :: m <= i < n ==> repos[i].Name != "" && |repos[i].Branches| > 0
  {
    if m < n {
      RepoProblemsPrefix(ps, repos, m, n - 1);
      var before := RepoProblems(ps, repos, n - 1);
      var after := RepoProblems(ps, repos, n);
      assert before <= after;
      assert |after| >= |before|;
      if |after| == |RepoProblems(ps, repos, m)| {
        assert |after| == |before|;
      }
    }
  }

  lemma TailPrefix(c: Config, ps: seq<Problem>)
    ensures ps <= TailProblems(c, ps)
    ensures |TailProblems(c, ps)| == |ps| <==>
            (c.FetchIntervals.Issues > 0 && c.FetchIntervals.PullRequests > 0 &&
             c.FetchIntervals.Actions > 0 && MinPort <= c.Server.Port <= MaxPort)
  {
  }

  /** Validation finds nothing wrong exactly when the configuration is valid. */
  lemma ProblemsEmptyIffValid(c: Config)
    ensures Problems(c) == [] <==> IsValid(c)
  {
    var repos := c.GitHub.Repositories;
    RepoProblemsPrefix(HeadProblems(c), repos, 0, |repos|);
    TailPrefix(c, RepoProblems(HeadProblems(c), repos, |repos|));
  }

  /** Problems are collected, not short-circuited: every failed check has its
      problem in the result, and each repository's under its own index. */
  lemma AllProblemsReported(c: Config)
    ensures c.GitHub.Organization == "" ==> |Problems(c)| > 0 && Problems(c)[0] == OrgMissing
    ensures |c.GitHub.Repositories| == 0 ==> NoRepositories in Problems(c)
    ensures c.FetchIntervals.Issues <= 0 ==> IssuesIntervalInvalid in Problems(c)
    ensures c.FetchIntervals.PullRequests <= 0 ==> PullsIntervalInvalid in Problems(c)
    ensures c.FetchIntervals.Actions <= 0 ==> ActionsIntervalInvalid in Problems(c)
    ensures (c.Server.Port < MinPort || c.Server.Port > MaxPort) ==> PortInvalid(c.Server.Port) in Problems(c)
    ensures forall i :: 0 <= i < |c.GitHub.Repositories| && c.GitHub.Repositories[i].Name == "" ==>
              NameMissing(i) in Problems(c)
    ensures forall i :: 0 <= i < |c.GitHub.Repositories| && |c.GitHub.Repositories[i].Branches| == 0 ==>
              BranchesMissing(i, c.GitHub.Repositories[i].Name) in Problems(c)
  {
    var repos := c.GitHub.Repositories;
    var head := HeadProblems(c);
    var all := RepoProblems(head, repos, |repos|);
    RepoProblemsPrefix(head, repos, 0, |repos|);
    TailPrefix(c, all);
    if c.GitHub.Organization == "" {
      assert head[0] == OrgMissing;
      assert Problems(c)[0] == OrgMissing;
    }
    if |repos| == 0 {
      InPrefix(NoRepositories, head, Problems(c));
    }
    forall i | 0 <= i < |repos|
      ensures repos[i].Name == "" ==> NameMissing(i) in Problems(c)
      ensures |repos[i].Branches| == 0 ==> BranchesMissing(i, repos[i].Name) in Problems(c)
    {
      RepoProblemReported(c, i);
    }
  }

  /** The problems of the i-th repository are among those reported. */
  lemma RepoProblemReported(c: Config, i: nat)
    requires i < |c.GitHub.Repositories|
    ensures var r := c.GitHub.Repositories[i];
            && (r.Name == "" ==> NameMissing(i) in Problems(c))
            && (|r.Branches| == 0 ==> BranchesMissing(i, r.Name) in Problems(c))
  {
    var repos := c.GitHub.Repositories;
    var head := HeadProblems(c);
    var all := RepoProblems(head, repos, |repos|);
    TailPrefix(c, all);
    RepoProblemsPrefix(head, repos, i + 1, |repos|);
    var upto := RepoProblems(head, repos, i + 1);
    var named := AddIf(RepoProblems(head, repos, i), repos[i].Name == "", NameMissing(i));
    assert named <= upto;
    if repos[i].Name == "" {
      InPrefix(NameMissing(i), named, upto);
      InPrefix(NameMissing(i), upto, all);
      InPrefix(NameMissing(i), all, Problems(c));
    }
    if |repos[i].Branches| == 0 {
      InPrefix(BranchesMissing(i, repos[i].Name), upto, all);
      InPrefix(BranchesMissing(i, repos[i].Name), all, Problems(c));
    }
  }
}
