/** The build-status views (internal/handlers/builds.go): per-branch check
    counts and verdicts, grouping of branch checks by repository in
    configuration order, and sorting repositories into configuration order. */
module Builds {
  import opened Types
  import Strings
  import Sorting
  import Checks
  import Staleness

  /** A configured repository and its tracked branches. */
  datatype RepoBranches = RepoBranches(Name: string, Branches: seq<string>)

  datatype BranchStatus = BranchStatus(
    Branch: string,
    IsMain: bool,
    Checks: seq<Check>,
    HasChecks: bool,
    CommitSHA: string,
    CommitURL: string,
    SuccessCount: int,
    FailureCount: int,
    RunningCount: int,
    OverallStatus: string,
    StatusClass: string)

  datatype RepositoryStatus = RepositoryStatus(Name: string, Branches: seq<BranchStatus>, Stale: bool)

  /** isMainBranch: exactly "main" and "master", case-sensitively. */
  predicate IsMainBranch(branch: string)
  {
    branch == "main" || branch == "master"
  }

  lemma IsMainBranchCases()
    ensures IsMainBranch("main") && IsMainBranch("master")
    ensures !IsMainBranch("Main") && !IsMainBranch("develop") && !IsMainBranch("") && !IsMainBranch("release/1.0")
  {
  }

  // ---------------------------------------------------------------------
  // computeBranchCounts

  /** The conclusions builds.go counts as failures. */
  const FailingAsWritten: set<string> := {"failure", "timed_out", "action_required", "cancelled"}

  /** The failing conclusions with "neutral" added, which the package's own
      test of computeBranchCounts expects to count as a failure. */
  const Failing: set<string> := FailingAsWritten + {"neutral"}

  /** Where one check run goes in the branch counts. */
  datatype Outcome = Run | Fail | Pass | Uncounted

  /** The switch in computeBranchCounts: an unfinished check is running
      whatever its conclusion, then a failing conclusion, then "success";
      anything else is not counted. */
  function Classify(c: Check, failing: set<string>): Outcome
  {
    if c.Status in Checks.RunningStatuses then Run
    else if c.Conclusion in failing then Fail
    else if c.Conclusion == "success" then Pass
    else Uncounted
  }

  /** How many of the checks have outcome o. */
  function Count(checks: seq<Check>, o: Outcome, failing: set<string>): nat
  {
    if checks == [] then 0
    else Count(checks[..|checks| - 1], o, failing) + (if Classify(checks[|checks| - 1], failing) == o then 1 else 0)
  }

  /** The branch verdict and its CSS class: Running before Failed before
      Passed; with nothing counted, Unknown. */
  function Verdict(running: int, failure: int, success: int): (v: (string, string))
    ensures v == ("Running", "status-running") <==> running > 0
    ensures v == ("Failed", "status-failure") <==> running <= 0 && failure > 0
    ensures v == ("Passed", "status-success") <==> running <= 0 && failure <= 0 && success > 0
    ensures v == ("Unknown", "status-neutral") <==> running <= 0 && failure <= 0 && success <= 0
  {
    if running > 0 then ("Running", "status-running")
    else if failure > 0 then ("Failed", "status-failure")
    else if success > 0 then ("Passed", "status-success")
    else ("Unknown", "status-neutral")
  }

  /** A branch status after its checks are counted on top of its counters. */
  function WithCounts(bs: BranchStatus, failing: set<string>): BranchStatus
  {
    var running := bs.RunningCount + Count(bs.Checks, Run, failing);
    var failure := bs.FailureCount + Count(bs.Checks, Fail, failing);
    var success := bs.SuccessCount + Count(bs.Checks, Pass, failing);
    var v := Verdict(running, failure, success);
    bs.(RunningCount := running, FailureCount := failure, SuccessCount := success,
        OverallStatus := v.0, StatusClass := v.1)
  }

  /** computeBranchCounts: bump one counter per counted check, then set the
      verdict from the counters. */
  method ComputeBranchCounts(bs: BranchStatus, failing: set<string>) returns (r: BranchStatus)
    ensures r == WithCounts(bs, failing)
  {
    r := CountChecks(bs, failing);
    if r.RunningCount > 0 {
      r := r.(OverallStatus := "Running", StatusClass := "status-running");
    } else if r.FailureCount > 0 {
      r := r.(OverallStatus := "Failed", StatusClass := "status-failure");
    } else if r.SuccessCount > 0 {
      r := r.(OverallStatus := "Passed", StatusClass := "status-success");
    } else {
      r := r.(OverallStatus := "Unknown", StatusClass := "status-neutral");
    }
  }

  lemma CountSnoc(checks: seq<Check>, i: nat, o: Outcome, failing: set<string>)
    requires i < |checks|
    ensures Count(checks[..i + 1], o, failing)
            == Count(checks[..i], o, failing) + (if Classify(checks[i], failing) == o then 1 else 0)
  {
    assert checks[..i + 1][..i] == checks[..i];
  }

  /** The counting loop of computeBranchCounts. */
  method CountChecks(bs: BranchStatus, failing: set<string>) returns (r: BranchStatus)
    ensures r == bs.(RunningCount := bs.RunningCount + Count(bs.Checks, Run, failing),
                     FailureCount := bs.FailureCount + Count(bs.Checks, Fail, failing),
                     SuccessCount := bs.SuccessCount + Count(bs.Checks, Pass, failing))
  {
    r := bs;
    var checks := bs.Checks;
    for i := 0 to |checks|
      invariant r == bs.(RunningCount := r.RunningCount, FailureCount := r.FailureCount,
                         SuccessCount := r.SuccessCount)
      invariant r.RunningCount == bs.RunningCount + Count(checks[..i], Run, failing)
      invariant r.FailureCount == bs.FailureCount + Count(checks[..i], Fail, failing)
      invariant r.SuccessCount == bs.SuccessCount + Count(checks[..i], Pass, failing)
    {
      var check := checks[i];
      CountSnoc(checks, i, Run, failing);
      CountSnoc(checks, i, Fail, failing);
      CountSnoc(checks, i, Pass, failing);
      if check.Status in Checks.RunningStatuses {
        r := r.(RunningCount := r.RunningCount + 1);
      } else if check.Conclusion in failing {
        r := r.(FailureCount := r.FailureCount + 1);
      } else if check.Conclusion == "success" {
        r := r.(SuccessCount := r.SuccessCount + 1);
      }
    }
    assert checks[..|checks|] == checks;
  }

  /** Every check lands in exactly one place, so the counters grow by at most
      the number of checks. */
  lemma {:induction false} CountsAddUp(checks: seq<Check>, failing: set<string>)
    ensures Count(checks, Run, failing) + Count(checks, Fail, failing) + Count(checks, Pass, failing)
            + Count(checks, Uncounted, failing) == |checks|
  {
    if checks != [] {
      CountsAddUp(checks[..|checks| - 1], failing);
    }
  }

  /** Counting from zero, the three counters together never exceed the
      number of checks. */
  lemma CountsBounded(bs: BranchStatus, failing: set<string>)
    requires bs.RunningCount == 0 && bs.FailureCount == 0 && bs.SuccessCount == 0
    ensures var r := WithCounts(bs, failing);
            r.RunningCount + r.FailureCount + r.SuccessCount <= |bs.Checks|
  {
    CountsAddUp(bs.Checks, failing);
  }

  /** The conclusion list as written leaves a "neutral" check uncounted, so a
      branch whose only check concluded neutral shows Unknown. */
  lemma NeutralUncountedAsWritten(bs: BranchStatus)
    requires bs.Checks == [Check("", "completed", "neutral", "")]
    requires bs.RunningCount == 0 && bs.FailureCount == 0 && bs.SuccessCount == 0
    ensures WithCounts(bs, FailingAsWritten).FailureCount == 0
    ensures WithCounts(bs, FailingAsWritten).OverallStatus == "Unknown"
  {
    var c := bs.Checks[0];
    assert c.Status !in Checks.RunningStatuses;
    assert c.Conclusion !in FailingAsWritten && c.Conclusion != "success";
    assert bs.Checks[..0] == [];
    assert Count(bs.Checks, Fail, FailingAsWritten) == 0;
    assert Count(bs.Checks, Pass, FailingAsWritten) == 0;
    assert Count(bs.Checks, Run, FailingAsWritten) == 0;
  }

  /** With "neutral" among the failing conclusions, that branch shows Failed. */
  lemma NeutralCountsAsFailure(bs: BranchStatus)
    requires bs.Checks == [Check("", "completed", "neutral", "")]
    requires bs.RunningCount == 0 && bs.FailureCount == 0 && bs.SuccessCount == 0
    ensures WithCounts(bs, Failing).FailureCount == 1
    ensures WithCounts(bs, Failing).OverallStatus == "Failed"
  {
    var c := bs.Checks[0];
    assert c.Status !in Checks.RunningStatuses;
    assert c.Conclusion in Failing;
    assert bs.Checks[..0] == [];
    assert Count(bs.Checks, Fail, Failing) == 1;
    assert Count(bs.Checks, Run, Failing) == 0;
  }

  /** The branch counts of builds.go agree with ClassifyCheck on every check
      they count: running is running, passed is success, failed is failure.
      The checks they leave uncounted are exactly the finished ones whose
      conclusion is neither "success" nor one of the four failing ones, all
      of which ClassifyCheck calls failures. */
  lemma ClassifyAgrees(c: Check)
    ensures Classify(c, FailingAsWritten) == Run <==> Checks.ClassifyCheck(c.Status, c.Conclusion) == Checks.Running
    ensures Classify(c, FailingAsWritten) == Pass <==> Checks.ClassifyCheck(c.Status, c.Conclusion) == Checks.Success
    ensures Classify(c, FailingAsWritten) == Fail ==> Checks.ClassifyCheck(c.Status, c.Conclusion) == Checks.Failure
    ensures Classify(c, FailingAsWritten) == Uncounted <==>
              Checks.ClassifyCheck(c.Status, c.Conclusion) == Checks.Failure && c.Conclusion !in FailingAsWritten
  {
  }

  // ---------------------------------------------------------------------
  // HasDetails

  predicate NeedsAttention(b: BranchStatus)
  {
    b.FailureCount > 0 || b.RunningCount > 0
  }

  /** HasDetails: some branch has a failing or a running check. */
  method HasDetails(rs: RepositoryStatus) returns (r: bool)
    ensures r <==> exists i :: 0 <= i < |rs.Branches| && NeedsAttention(rs.Branches[i])
  {
    for i := 0 to |rs.Branches|
      invariant forall k :: 0 <= k < i ==> !NeedsAttention(rs.Branches[k])
    {
      if rs.Branches[i].FailureCount > 0 || rs.Branches[i].RunningCount > 0 {
        return true;
      }
    }
    return false;
  }

  // ---------------------------------------------------------------------
  // sortByConfigOrder

  /** The last position of x in xs: a name listed twice keeps the later index,
      as repeated map assignment does. */
  function LastIndex(xs: seq<string>, x: string): (k: nat)
    requires x in xs
    ensures k < |xs| && xs[k] == x
    ensures forall j :: k < j < |xs| ==> xs[j] != x
  {
    if xs[|xs| - 1] == x then |xs| - 1 else LastIndex(xs[..|xs| - 1], x)
  }

  /** A repository's place in the configuration; unknown ones share the place
      after the last. */
  function Rank(repoNames: seq<string>, name: string): (k: nat)
    ensures k <= |repoNames|
    ensures k == |repoNames| <==> name !in repoNames
  {
    if name in repoNames then LastIndex(repoNames, name) else |repoNames|
  }

  /** The comparator: by configuration place, then by name. */
  predicate ConfigBefore(index: map<string, int>, sentinel: int, a: RepositoryStatus, b: RepositoryStatus)
  {
    var ia := if a.Name in index then index[a.Name] else sentinel;
    var ib := if b.Name in index then index[b.Name] else sentinel;
    if ia != ib then ia < ib else Strings.Less(a.Name, b.Name)
  }

  lemma ConfigBeforeOrder(index: map<string, int>, sentinel: int)
    ensures Sorting.StrictWeakOrder((a, b) => ConfigBefore(index, sentinel, a, b))
  {
    var less := (a, b) => ConfigBefore(index, sentinel, a, b);
    forall x: RepositoryStatus, y: RepositoryStatus ensures !less(x, y) || !less(y, x) {
      Strings.LessTrichotomous(x.Name, y.Name);
    }
    forall x: RepositoryStatus, y: RepositoryStatus, z: RepositoryStatus | !less(y, x) && !less(z, y)
      ensures !less(z, x)
    {
      Strings.LessTrichotomous(x.Name, y.Name);
      Strings.LessTrichotomous(y.Name, z.Name);
      Strings.LessTrichotomous(x.Name, z.Name);
      if Strings.Less(x.Name, y.Name) && Strings.Less(y.Name, z.Name) {
        Strings.LessTransitive(x.Name, y.Name, z.Name);
      }
    }
  }

  /** The order sortByConfigOrder produces between two repositories. */
  predicate InConfigOrder(repoNames: seq<string>, a: RepositoryStatus, b: RepositoryStatus)
  {
    Rank(repoNames, a.Name) < Rank(repoNames, b.Name)
    || (Rank(repoNames, a.Name) == Rank(repoNames, b.Name) && !Strings.Less(b.Name, a.Name))
  }

  /** sortByConfigOrder: a permutation in which configured repositories come
      by configuration place and the others after them, by name. */
  method SortByConfigOrder(repos: array<RepositoryStatus>, repoNames: seq<string>)
    modifies repos
    ensures multiset(repos[..]) == multiset(old(repos[..]))
    ensures forall i, j :: 0 <= i < j < repos.Length ==> InConfigOrder(repoNames, repos[i], repos[j])
  {
    var repoIndex: map<string, int> := map[];
    for i := 0 to |repoNames|
      invariant forall x :: x in repoIndex <==> x in repoNames[..i]
      invariant forall x :: x in repoIndex ==> repoIndex[x] == LastIndex(repoNames[..i], x)
    {
      assert repoNames[..i + 1] == repoNames[..i] + [repoNames[i]];
      assert repoNames[..i + 1][..i] == repoNames[..i];
      repoIndex := repoIndex[repoNames[i] := i];
    }
    assert repoNames[..|repoNames|] == repoNames;
    var sentinel := |repoNames|;
    var less := (a, b) => ConfigBefore(repoIndex, sentinel, a, b);
    ConfigBeforeOrder(repoIndex, sentinel);
    Sorting.SortBy(repos, less);
    forall i, j | 0 <= i < j < repos.Length ensures InConfigOrder(repoNames, repos[i], repos[j]) {
      assert !less(repos[j], repos[i]);
    }
  }

  /** So every configured repository comes before every unknown one. */
  lemma ConfiguredFirst(repoNames: seq<string>, a: RepositoryStatus, b: RepositoryStatus)
    requires InConfigOrder(repoNames, a, b)
    requires b.Name in repoNames
    ensures a.Name in repoNames
  {
  }

  // ---------------------------------------------------------------------
  // groupByRepository

  datatype BranchKey = BranchKey(repo: string, branch: string)

  function KeyOf(bc: BranchCheck): BranchKey
  {
    BranchKey(bc.Repository, bc.Branch)
  }

  /** The index of branch checks by (repository, branch); with a key listed
      twice, the later entry overwrites the earlier. */
  function CheckIndex(bcs: seq<BranchCheck>): map<BranchKey, BranchCheck>
  {
    if bcs == [] then map[]
    else CheckIndex(bcs[..|bcs| - 1])[KeyOf(bcs[|bcs| - 1]) := bcs[|bcs| - 1]]
  }

  /** A configured branch before any check is attached. */
  function Bare(branch: string): BranchStatus
  {
    BranchStatus(branch, IsMainBranch(branch), [], false, "", "", 0, 0, 0, "", "")
  }

  /** A branch shown with the checks of one branch check, counted. */
  function FromCheck(branch: string, bc: BranchCheck): BranchStatus
  {
    WithCounts(Bare(branch).(Checks := bc.Checks, HasChecks := |bc.Checks| > 0,
                             CommitSHA := bc.CommitSHA, CommitURL := bc.CommitURL), FailingAsWritten)
  }

  /** The rows of one configured repository: one per configured branch, in
      configuration order, filled in where a check was found. */
  function ConfiguredBranches(index: map<BranchKey, BranchCheck>, repo: string, branches: seq<string>): seq<BranchStatus>
  {
    if branches == [] then []
    else
      var branch := branches[|branches| - 1];
      var key := BranchKey(repo, branch);
      ConfiguredBranches(index, repo, branches[..|branches| - 1])
      + [if key in index then FromCheck(branch, index[key]) else Bare(branch)]
  }

  /** Some configured branch of the repository has a branch check. */
  predicate HasData(index: map<BranchKey, BranchCheck>, repo: string, branches: seq<string>)
  {
    exists b :: b in branches && BranchKey(repo, b) in index
  }

  function ConfiguredRepo(index: map<BranchKey, BranchCheck>, rc: RepoBranches): RepositoryStatus
  {
    RepositoryStatus(rc.Name, ConfiguredBranches(index, rc.Name, rc.Branches), false)
  }

  /** The configured repositories with data, in configuration order. */
  function ConfiguredPart(index: map<BranchKey, BranchCheck>, config: seq<RepoBranches>): seq<RepositoryStatus>
  {
    if config == [] then []
    else
      var rc := config[|config| - 1];
      ConfiguredPart(index, config[..|config| - 1])
      + (if HasData(index, rc.Name, rc.Branches) then [ConfiguredRepo(index, rc)] else [])
  }

  function ConfiguredNames(config: seq<RepoBranches>): set<string>
  {
    set rc | rc in config :: rc.Name
  }

  /** The repositories with branch checks that the configuration does not list. */
  function UnknownNames(bcs: seq<BranchCheck>, configured: set<string>): set<string>
  {
    set bc | bc in bcs && bc.Repository !in configured :: bc.Repository
  }

  /** The rows of an unknown repository: one per branch check, in input order. */
  function UnknownBranches(bcs: seq<BranchCheck>, name: string): seq<BranchStatus>
  {
    if bcs == [] then []
    else
      var bc := bcs[|bcs| - 1];
      UnknownBranches(bcs[..|bcs| - 1], name) + (if bc.Repository == name then [FromCheck(bc.Branch, bc)] else [])
  }

  lemma {:induction false} UnknownBranchesNone(bcs: seq<BranchCheck>, name: string)
    requires forall bc :: bc in bcs ==> bc.Repository != name
    ensures UnknownBranches(bcs, name) == []
  {
    if bcs != [] {
      assert forall bc :: bc in bcs[..|bcs| - 1] ==> bc in bcs;
      UnknownBranchesNone(bcs[..|bcs| - 1], name);
    }
  }

  /** The first loop of groupByRepository: index the branch checks. */
  method IndexChecks(branchChecks: seq<BranchCheck>) returns (checkIndex: map<BranchKey, BranchCheck>)
    ensures checkIndex == CheckIndex(branchChecks)
  {
    checkIndex := map[];
    for i := 0 to |branchChecks|
      invariant checkIndex == CheckIndex(branchChecks[..i])
    {
      var bc := branchChecks[i];
      assert branchChecks[..i + 1][..i] == branchChecks[..i];
      checkIndex := checkIndex[BranchKey(bc.Repository, bc.Branch) := bc];
    }
    assert branchChecks[..|branchChecks|] == branchChecks;
  }

  /** The rows of one configured repository, and whether any branch matched. */
  method ConfiguredRows(checkIndex: map<BranchKey, BranchCheck>, rc: RepoBranches)
    returns (branches: seq<BranchStatus>, hasData: bool)
    ensures branches == ConfiguredBranches(checkIndex, rc.Name, rc.Branches)
    ensures hasData <==> HasData(checkIndex, rc.Name, rc.Branches)
  {
    branches := [];
    hasData := false;
    for b := 0 to |rc.Branches|
      invariant branches == ConfiguredBranches(checkIndex, rc.Name, rc.Branches[..b])
      invariant hasData <==> HasData(checkIndex, rc.Name, rc.Branches[..b])
    {
      var branch := rc.Branches[b];
      assert rc.Branches[..b + 1][..b] == rc.Branches[..b];
      assert rc.Branches[..b + 1] == rc.Branches[..b] + [branch];
      var bs := BranchStatus(branch, IsMainBranch(branch), [], false, "", "", 0, 0, 0, "", "");
      var key := BranchKey(rc.Name, branch);
      if key in checkIndex {
        var bc := checkIndex[key];
        bs := bs.(Checks := bc.Checks, HasChecks := |bc.Checks| > 0, CommitSHA := bc.CommitSHA, CommitURL := bc.CommitURL);
        bs := ComputeBranchCounts(bs, FailingAsWritten);
        hasData := true;
      }
      branches := branches + [bs];
    }
    assert rc.Branches[..|rc.Branches|] == rc.Branches;
  }

  /** The loop over the configuration: the repositories with data, in order,
      and the set of configured names. */
  method ConfiguredRepos(checkIndex: map<BranchKey, BranchCheck>, repoConfig: seq<RepoBranches>)
    returns (repositories: seq<RepositoryStatus>, configRepos: set<string>)
    ensures repositories == ConfiguredPart(checkIndex, repoConfig)
    ensures configRepos == ConfiguredNames(repoConfig)
  {
    configRepos := {};
    repositories := [];
    for c := 0 to |repoConfig|
      invariant configRepos == ConfiguredNames(repoConfig[..c])
      invariant repositories == ConfiguredPart(checkIndex, repoConfig[..c])
    {
      var rc := repoConfig[c];
      assert repoConfig[..c + 1][..c] == repoConfig[..c];
      assert repoConfig[..c + 1] == repoConfig[..c] + [rc];
      configRepos := configRepos + {rc.Name};
      var branches, hasData := ConfiguredRows(checkIndex, rc);
      if hasData {
        repositories := repositories + [RepositoryStatus(rc.Name, branches, false)];
      }
    }
    assert repoConfig[..|repoConfig|] == repoConfig;
  }

  /** The loop over branch checks of unknown repositories: one entry per
      repository, its rows in input order. */
  method UnknownRepos(branchChecks: seq<BranchCheck>, configRepos: set<string>)
    returns (unknownRepos: map<string, RepositoryStatus>)
    ensures unknownRepos.Keys == UnknownNames(branchChecks, configRepos)
    ensures forall n :: n in unknownRepos ==>
              unknownRepos[n] == RepositoryStatus(n, UnknownBranches(branchChecks, n), false)
  {
    unknownRepos := map[];
    for i := 0 to |branchChecks|
      invariant unknownRepos.Keys == UnknownNames(branchChecks[..i], configRepos)
      invariant forall n :: n in unknownRepos ==>
                  unknownRepos[n] == RepositoryStatus(n, UnknownBranches(branchChecks[..i], n), false)
      invariant forall n :: n in unknownRepos ==> n !in configRepos
    {
      var bc := branchChecks[i];
      assert branchChecks[..i + 1][..i] == branchChecks[..i];
      assert branchChecks[..i + 1] == branchChecks[..i] + [bc];
      assert forall n :: n != bc.Repository ==>
               UnknownBranches(branchChecks[..i + 1], n) == UnknownBranches(branchChecks[..i], n);
      if bc.Repository in configRepos {
        continue;
      }
      if bc.Repository !in unknownRepos {
        UnknownBranchesNone(branchChecks[..i], bc.Repository);
      }
      var rs := if bc.Repository in unknownRepos then unknownRepos[bc.Repository]
                else RepositoryStatus(bc.Repository, [], false);
      var bs := BranchStatus(bc.Branch, IsMainBranch(bc.Branch), bc.Checks, |bc.Checks| > 0,
                             bc.CommitSHA, bc.CommitURL, 0, 0, 0, "", "");
      bs := ComputeBranchCounts(bs, FailingAsWritten);
      assert bs == FromCheck(bc.Branch, bc);
      unknownRepos := unknownRepos[bc.Repository := rs.(Branches := rs.Branches + [bs])];
    }
    assert branchChecks[..|branchChecks|] == branchChecks;
  }

  /** The last loop of groupByRepository: append the entries of the names, in
      the order given. */
  method AppendInOrder(repositories: seq<RepositoryStatus>, entries: map<string, RepositoryStatus>, names: seq<string>)
    returns (result: seq<RepositoryStatus>)
    requires forall n :: n in names ==> n in entries
    ensures |result| == |repositories| + |names|
    ensures result[..|repositories|] == repositories
    ensures forall x :: |repositories| <= x < |result| ==> result[x] == entries[names[x - |repositories|]]
  {
    result := repositories;
    for k := 0 to |names|
      invariant |result| == |repositories| + k
      invariant result[..|repositories|] == repositories
      invariant forall x :: |repositories| <= x < |result| ==> result[x] == entries[names[x - |repositories|]]
    {
      result := result + [entries[names[k]]];
    }
  }

  /** groupByRepository: the configured repositories that have data, in
      configuration order, then every unknown repository once, by name. */
  method GroupByRepository(branchChecks: seq<BranchCheck>, repoConfig: seq<RepoBranches>)
    returns (repositories: seq<RepositoryStatus>)
    ensures var n := |ConfiguredPart(CheckIndex(branchChecks), repoConfig)|;
            n <= |repositories| && repositories[..n] == ConfiguredPart(CheckIndex(branchChecks), repoConfig)
    ensures var n := |ConfiguredPart(CheckIndex(branchChecks), repoConfig)|;
            && (set k | n <= k < |repositories| :: repositories[k].Name)
               == UnknownNames(branchChecks, ConfiguredNames(repoConfig))
            && |repositories| == n + |UnknownNames(branchChecks, ConfiguredNames(repoConfig))|
    ensures var n := |ConfiguredPart(CheckIndex(branchChecks), repoConfig)|;
            forall k :: n <= k < |repositories| ==>
              repositories[k] == RepositoryStatus(repositories[k].Name,
                                                  UnknownBranches(branchChecks, repositories[k].Name), false)
    ensures var n := |ConfiguredPart(CheckIndex(branchChecks), repoConfig)|;
            forall i, j :: n <= i < j < |repositories| ==>
              Strings.Less(repositories[i].Name, repositories[j].Name)
  {
    var checkIndex := IndexChecks(branchChecks);
    var configured, configRepos := ConfiguredRepos(checkIndex, repoConfig);
    var unknownRepos := UnknownRepos(branchChecks, configRepos);

    // The same collect-and-sort as sortedKeys
    var unknownNames := Staleness.SortedKeys(unknownRepos.Keys);
    repositories := AppendInOrder(configured, unknownRepos, unknownNames);

    UnknownTail(branchChecks, configured, unknownRepos, unknownNames, repositories);
  }

  /** The repositories appended after the configured ones: one per unknown
      name, in the order of the sorted names. */
  lemma UnknownTail(branchChecks: seq<BranchCheck>, configured: seq<RepositoryStatus>,
                    unknownRepos: map<string, RepositoryStatus>, unknownNames: seq<string>,
                    repositories: seq<RepositoryStatus>)
    requires forall m :: m in unknownRepos ==>
               unknownRepos[m] == RepositoryStatus(m, UnknownBranches(branchChecks, m), false)
    requires |unknownNames| == |unknownRepos|
    requires forall m :: m in unknownNames <==> m in unknownRepos
    requires forall i, j :: 0 <= i < j < |unknownNames| ==> Strings.Less(unknownNames[i], unknownNames[j])
    requires |repositories| == |configured| + |unknownNames|
    requires forall x :: |configured| <= x < |repositories| ==>
               repositories[x] == unknownRepos[unknownNames[x - |configured|]]
    ensures var n := |configured|;
            (set k | n <= k < |repositories| :: repositories[k].Name) == unknownRepos.Keys
    ensures var n := |configured|;
            forall k :: n <= k < |repositories| ==>
              repositories[k] == RepositoryStatus(repositories[k].Name,
                                                  UnknownBranches(branchChecks, repositories[k].Name), false)
    ensures var n := |configured|;
            forall i, j :: n <= i < j < |repositories| ==>
              Strings.Less(repositories[i].Name, repositories[j].Name)
  {
    var n := |configured|;
    forall k | n <= k < |repositories|
      ensures repositories[k].Name == unknownNames[k - n]
      ensures repositories[k] == RepositoryStatus(repositories[k].Name,
                                                  UnknownBranches(branchChecks, repositories[k].Name), false)
    {
      assert unknownNames[k - n] in unknownRepos;
    }
    forall i, j | n <= i < j < |repositories|
      ensures Strings.Less(repositories[i].Name, repositories[j].Name)
    {
      assert Strings.Less(unknownNames[i - n], unknownNames[j - n]);
    }
    var names := set x | n <= x < |repositories| :: repositories[x].Name;
    forall m | m in unknownRepos ensures m in names {
      var j :| 0 <= j < |unknownNames| && unknownNames[j] == m;
      assert repositories[n + j].Name == m;
    }
    assert names == unknownRepos.Keys;
  }

  // Properties of the grouping

  /** For a (repository, branch) listed more than once, the last entry wins. */
  lemma {:induction false} CheckIndexLastWins(bcs: seq<BranchCheck>, k: BranchKey)
    ensures k in CheckIndex(bcs) <==> exists i :: 0 <= i < |bcs| && KeyOf(bcs[i]) == k
    ensures k in CheckIndex(bcs) ==>
              exists i :: 0 <= i < |bcs| && KeyOf(bcs[i]) == k && CheckIndex(bcs)[k] == bcs[i]
                          && forall j :: i < j < |bcs| ==> KeyOf(bcs[j]) != k
  {
    if bcs != [] {
      var init := bcs[..|bcs| - 1];
      var last := bcs[|bcs| - 1];
      CheckIndexLastWins(init, k);
      if KeyOf(last) == k {
        assert KeyOf(bcs[|bcs| - 1]) == k && CheckIndex(bcs)[k] == bcs[|bcs| - 1];
      } else if k in CheckIndex(init) {
        var i :| 0 <= i < |init| && KeyOf(init[i]) == k && CheckIndex(init)[k] == init[i]
                 && forall j :: i < j < |init| ==> KeyOf(init[j]) != k;
        assert bcs[i] == init[i];
        assert forall j :: i < j < |bcs| ==> KeyOf(bcs[j]) != k by {
          forall j | i < j < |bcs| ensures KeyOf(bcs[j]) != k {
            if j < |init| {
              assert bcs[j] == init[j];
            }
          }
        }
      } else {
        forall i | 0 <= i < |bcs| ensures KeyOf(bcs[i]) != k {
          if i < |init| {
            assert bcs[i] == init[i];
          }
        }
      }
    }
  }

  /** A configured repository lists exactly its configured branches, in
      configuration order, each filled from its branch check when there is
      one and empty otherwise. */
  lemma {:induction false} ConfiguredBranchesShape(index: map<BranchKey, BranchCheck>, repo: string, branches: seq<string>)
    ensures |ConfiguredBranches(index, repo, branches)| == |branches|
    ensures forall j :: 0 <= j < |branches| ==>
              ConfiguredBranches(index, repo, branches)[j]
              == if BranchKey(repo, branches[j]) in index then FromCheck(branches[j], index[BranchKey(repo, branches[j])])
                 else Bare(branches[j])
  {
    if branches != [] {
      ConfiguredBranchesShape(index, repo, branches[..|branches| - 1]);
    }
  }

  /** The configured part keeps configuration order: it splits along any
      split of the configuration. */
  lemma {:induction false} ConfiguredPartAppend(index: map<BranchKey, BranchCheck>, a: seq<RepoBranches>, b: seq<RepoBranches>)
    ensures ConfiguredPart(index, a + b) == ConfiguredPart(index, a) + ConfiguredPart(index, b)
  {
    if b != [] {
      assert (a + b)[..|a + b| - 1] == a + b[..|b| - 1];
      ConfiguredPartAppend(index, a, b[..|b| - 1]);
    } else {
      assert a + b == a;
    }
  }

  /** A configured repository is shown exactly when one of its branches has a
      branch check. */
  lemma {:induction false} ConfiguredPartMembers(index: map<BranchKey, BranchCheck>, config: seq<RepoBranches>, rs: RepositoryStatus)
    ensures rs in ConfiguredPart(index, config) <==>
            exists rc :: rc in config && HasData(index, rc.Name, rc.Branches) && rs == ConfiguredRepo(index, rc)
  {
    if config != [] {
      var init := config[..|config| - 1];
      ConfiguredPartMembers(index, init, rs);
      assert config == init + [config[|config| - 1]];
      assert forall rc :: rc in config <==> rc in init || rc == config[|config| - 1];
    }
  }

  /** An unknown repository's rows follow the input order of its branch checks. */
  lemma {:induction false} UnknownBranchesAppend(a: seq<BranchCheck>, b: seq<BranchCheck>, name: string)
    ensures UnknownBranches(a + b, name) == UnknownBranches(a, name) + UnknownBranches(b, name)
  {
    if b != [] {
      assert (a + b)[..|a + b| - 1] == a + b[..|b| - 1];
      UnknownBranchesAppend(a, b[..|b| - 1], name);
    } else {
      assert a + b == a;
    }
  }
}
