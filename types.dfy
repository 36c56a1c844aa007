/** Record types shared by the collector, the store and the handlers
    (internal/github/types.go, plus the types whose fields the other files use). */
module Types {

  /** A point in time or a duration, in one fixed unit; 0 is Go's zero time. */
  type Time = int

  const ZeroTime: Time := 0

  datatype Option<T> = None | Some(value: T)

  datatype Label = Label(Name: string, Color: string)

  datatype Issue = Issue(
    Repository: string,
    Number: int,
    Title: string,
    URL: string,
    Author: string,
    AuthorAvatar: string,
    AuthorAssociation: string,
    IsExternal: bool,
    CreatedAt: Time,
    UpdatedAt: Time,
    Labels: seq<Label>)

  /** One CI check run as the dashboard keeps it. */
  datatype Check = Check(Name: string, Status: string, Conclusion: string, URL: string)

  /** A reviewer with the state of their latest counted review. */
  datatype Reviewer = Reviewer(Login: string, Avatar: string, State: string)

  datatype PullRequest = PullRequest(
    Repository: string,
    Number: int,
    Title: string,
    URL: string,
    Author: string,
    AuthorAvatar: string,
    AuthorAssociation: string,
    IsExternal: bool,
    CreatedAt: Time,
    UpdatedAt: Time,
    Labels: seq<Label>,
    State: string,
    Draft: bool,
    BaseBranch: string,
    HeadBranch: string,
    Comments: int,
    ReviewComments: int,
    MergeableState: string,
    ReviewStatus: string,
    Reviewers: seq<Reviewer>,
    Checks: seq<Check>,
    ChecksSuccess: int,
    ChecksFailure: int,
    ChecksRunning: int)

  /** The latest commit of one configured branch and the checks run on it. */
  datatype BranchCheck = BranchCheck(
    Repository: string,
    Branch: string,
    CommitSHA: string,
    CommitURL: string,
    UpdatedAt: Time,
    Checks: seq<Check>)

  /** The API rate-limit state reported with every response. */
  datatype RateInfo = RateInfo(Remaining: int, Limit: int, Reset: Time)

  const ZeroRate := RateInfo(0, 0, ZeroTime)

  /** One configured repository and the branches whose checks are tracked. */
  datatype RepositoryConfig = RepositoryConfig(Name: string, Branches: seq<string>)

  function IssueRepo(i: Issue): string { i.Repository }
  function PullRequestRepo(p: PullRequest): string { p.Repository }
  function BranchCheckRepo(b: BranchCheck): string { b.Repository }

  function Names(repos: seq<RepositoryConfig>): (names: seq<string>)
    ensures |names| == |repos|
    ensures forall i {:trigger names[i]} :: 0 <= i < |repos| ==> names[i] == repos[i].Name
  {
    if repos == [] then [] else [repos[0].Name] + Names(repos[1..])
  }
}
