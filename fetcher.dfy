/** One fetch cycle per category (internal/fetcher/fetcher.go): ask the
    collector for the whole organization, and write the store only when the
    collector reports no error. The collector is a parameter standing for the
    GitHub client; what it would log with LogRate is returned instead. */
module Fetcher {
  import opened Types
  import Config
  import Storage

  /** What a tuple-returning collector hands back: records, the last rate
      information and an error (None is Go's nil). */
  datatype Collected<T> = Collected(records: seq<T>, rate: RateInfo, err: Option<string>)

  class Fetcher {
    const cfg: Config.Config
    const storage: Storage.Memory

    constructor (cfg: Config.Config, storage: Storage.Memory)
      ensures this.cfg == cfg && this.storage == storage
    {
      this.cfg := cfg;
      this.storage := storage;
    }

    /** fetchIssues: on a collector error nothing is written and no rate is
        logged; otherwise the store gets exactly the returned issues and the
        returned rate is logged. */
    method FetchIssues(collect: (string, seq<RepositoryConfig>) -> Collected<Issue>, now: Time)
      returns (logged: Option<RateInfo>)
      modifies storage`issues, storage`issuesTime, storage`issueRepoTimes
      ensures var c := collect(cfg.GitHub.Organization, cfg.GitHub.Repositories);
              if c.err.Some? then
                && logged == None
                && storage.issues == old(storage.issues)
                && storage.issuesTime == old(storage.issuesTime)
                && storage.issueRepoTimes == old(storage.issueRepoTimes)
              else
                && logged == Some(c.rate)
                && storage.issues == c.records
                && storage.issuesTime == now
                && storage.issueRepoTimes
                   == Storage.Stamp(old(storage.issueRepoTimes), set i | i in c.records :: i.Repository, now)
    {
      var c := collect(cfg.GitHub.Organization, cfg.GitHub.Repositories);
      if c.err.Some? {
        return None;
      }
      storage.SetIssues(c.records, now);
      return Some(c.rate);
    }

    /** fetchPullRequests: the same skip-or-write rule for pull requests. */
    method FetchPullRequests(collect: (string, seq<RepositoryConfig>) -> Collected<PullRequest>, now: Time)
      returns (logged: Option<RateInfo>)
      modifies storage`pullRequests, storage`prsTime, storage`prRepoTimes
      ensures var c := collect(cfg.GitHub.Organization, cfg.GitHub.Repositories);
              if c.err.Some? then
                && logged == None
                && storage.pullRequests == old(storage.pullRequests)
                && storage.prsTime == old(storage.prsTime)
                && storage.prRepoTimes == old(storage.prRepoTimes)
              else
                && logged == Some(c.rate)
                && storage.pullRequests == c.records
                && storage.prsTime == now
                && storage.prRepoTimes
                   == Storage.Stamp(old(storage.prRepoTimes), set p | p in c.records :: p.Repository, now)
    {
      var c := collect(cfg.GitHub.Organization, cfg.GitHub.Repositories);
      if c.err.Some? {
        return None;
      }
      storage.SetPullRequests(c.records, now);
      return Some(c.rate);
    }

    /** fetchBranchChecks: the same skip-or-write rule for branch checks. */
    method FetchBranchChecks(collect: (string, seq<RepositoryConfig>) -> Collected<BranchCheck>, now: Time)
      returns (logged: Option<RateInfo>)
      modifies storage`branchChecks, storage`branchChecksTime, storage`checkRepoTimes
      ensures var c := collect(cfg.GitHub.Organization, cfg.GitHub.Repositories);
              if c.err.Some? then
                && logged == None
                && storage.branchChecks == old(storage.branchChecks)
                && storage.branchChecksTime == old(storage.branchChecksTime)
                && storage.checkRepoTimes == old(storage.checkRepoTimes)
              else
                && logged == Some(c.rate)
                && storage.branchChecks == c.records
                && storage.branchChecksTime == now
                && storage.checkRepoTimes
                   == Storage.Stamp(old(storage.checkRepoTimes), set b | b in c.records :: b.Repository, now)
    {
      var c := collect(cfg.GitHub.Organization, cfg.GitHub.Repositories);
      if c.err.Some? {
        return None;
      }
      storage.SetBranchChecks(c.records, now);
      return Some(c.rate);
    }
  }
}
