# ecmwf-dash core, modelled in Dafny

ecmwf-dash is a small web dashboard for a GitHub organization. It shows three views:

- open issues;
- open pull requests, with their reviews and checks;
- the build status of configured branches.

Background fetchers ask the GitHub API for each category on its own interval. The results go into an in-memory store. HTTP handlers sort, page and group what the store holds.

This project models that core and proves properties of the model:

- **The store** (`Storage.Memory`) is a class.
  - Its fields are the records and times of each category, plus each repository's last-success time.
  - `Set*` replaces a category.
  - `Merge*` keeps the old records of failed repositories and replaces the rest, and stamps the repositories that succeeded.
- **The fetch cycle** (`Fetcher.Fetcher`) writes the store only when the collector reports no error.
- **The collectors** (`IssuesCollector`, `PullsCollector`) page through each configured repository (`GitHub.Pages`).
  - Issues: pull requests that appear in the issues list are skipped.
  - Succeeded and failed repositories are reported. Repositories not reached before a cancellation are reported as failed.
  - Issues: an error is produced when nothing succeeded.
  - Pull requests: the reviews are reduced to each reviewer's latest counted review. A dismissal forgets the reviewer.
  - Pull requests: the review status is derived, and the checks are counted.
- **The handlers**:
  - The column sorts of the issue and pull-request pages, and the page arithmetic of those pages (pages of 100).
  - The query-parameter sanitisers and `paginate`.
  - Staleness: a repository is stale when it was never fetched, or was last fetched more than three intervals ago.
  - The build view: per-branch check counts and verdicts, grouping in configuration order, and the sort into configuration order.
- **Configuration validation**: every problem is reported, joined with `"; "`.

Modelling choices:

- **Time** is an `int`, and `0` is the zero time. The current time is a parameter (`now`).
- **The GitHub API** is a function from an organization and a repository to the scripted answers of successive list calls. Each answer is either an error or a page of items with a "more pages" flag. Calls past the end of the script fail.
- **Context cancellation** is `GitHub.Cancel`: the context reports its error once a given number of list calls has been made, or never.
- **Sorting**: Go's `sort.Slice` and `sort.Strings` are one generic in-place sort, `Sorting.SortBy`. It is proved to produce a permutation that is sorted by the comparator, and it requires the comparator to be a strict weak ordering. That requirement is proved for every comparator the handlers use.
- **Go's `<` on strings** is `Strings.Less`, the lexicographic order on characters.

### Skew between the source files

The files of the repository are not all at the same version. The model follows each file as written, `internal/handlers/builds.go` included (its counting at line 278 is discussed under "## Findings"):

- `internal/fetcher/fetcher.go` takes a tuple `(records, rate, err)` from each collector and calls `Set*`.
  - `internal/github/issues.go` returns an `IssuesFetchResult` with succeeded and failed repositories.
  - The fetcher tests use `Merge*`.
  - `Fetcher.Fetcher` therefore takes a tuple-returning collector, and `Storage.Memory` models both `Set*` and `Merge*`.
- `getNextOrder` is defined twice, with identical code: `internal/handlers/dashboard.go:151-156` and `internal/handlers/params.go:28-33`. It is modelled once, as `Params.GetNextOrder`.
- `internal/github/types.go` declares `Label` without the `LabelStyle` field that the collectors set. The model's `Label` has no style.
- The file defining `isInternal` is not part of this model. `GitHub.IsInternal` follows the comment on `IsExternal` (`internal/github/types.go:12-13`) and the test table in `internal/github/types_test.go:5-27`: exactly OWNER, MEMBER and COLLABORATOR, case-sensitively.

## Model

| member | source | states |
|---|---|---|
| Types.Names | internal/github/issues.go:96-99 | the names of the configured repositories, one per repository, in configuration order |
| Storage.Memory.constructor | internal/storage/memory.go:28-34 | a new store has no records, zero times and empty per-repository times |
| Storage.Memory.SetIssues | internal/storage/memory.go:36-43 | the issues are replaced and the category time set to now; every repository that has a record is stamped with now, and other entries keep their times |
| Storage.Memory.GetIssues | internal/storage/memory.go:45-49 | returns exactly the stored issues and their time |
| Storage.Memory.SetPullRequests | internal/storage/memory.go:51-58 | as SetIssues, for pull requests |
| Storage.Memory.GetPullRequests | internal/storage/memory.go:60-64 | returns exactly the stored pull requests and their time |
| Storage.Memory.SetBranchChecks | internal/storage/memory.go:66-73 | as SetIssues, for branch checks |
| Storage.Memory.GetBranchChecks | internal/storage/memory.go:75-79 | returns exactly the stored branch checks and their time |
| Storage.Memory.LastFetchTimes | internal/storage/memory.go:81-85 | the three category times |
| Storage.Memory.MergeIssues | internal/storage/memory.go:87-106 | new contents = the old issues of the failed repositories, in order, followed by the new issues; time and per-repository stamps change only when some repository succeeded, and then only the succeeded ones are stamped |
| Storage.Memory.MergePullRequests | internal/storage/memory.go:108-126 | as MergeIssues, for pull requests |
| Storage.Memory.MergeBranchChecks | internal/storage/memory.go:128-146 | as MergeIssues, for branch checks |
| Storage.Memory.RepoFetchTimes | internal/storage/memory.go:148-170 | the per-repository times of "issues", "prs" or "checks"; any other category name gives an empty map |
| Storage.MergeKeepsFailedRepo | internal/storage/memory.go:87-97 | after a merge, a failed repository has all of its old records, in order, followed by its new ones (no data loss on partial failure) |
| Storage.MergeReplacesOtherRepos | internal/storage/memory.go:87-97 | after a merge, a repository not listed as failed has exactly its new records |
| Storage.KeptMembers | internal/storage/memory.go:227-237 | a record survives filtering exactly when its repository is in the keep set |
| Storage.KeptSubMultiset | internal/storage/memory.go:227-263 | filtering only removes records |
| Storage.KeptKept | internal/storage/memory.go:227-263 | filtering by one set and then another is filtering by their intersection |
| Storage.Memory.MergeIssuesTwice | internal/storage/memory.go:87-106 | across two successive merges a repository that succeeded in the first carries the second time when it succeeds again and keeps its first time when it does not; the category time is the later one exactly when the second merge had a success; the issues are the first merge merged again |
| Storage.UpdateRepoTimes | internal/storage/memory.go:172-178 | the listed repositories get now; every other entry is unchanged |
| Storage.RepoNamesFrom | internal/storage/memory.go:180-216 | the distinct repositories of the records, without duplicates, each at its first occurrence; a name is listed exactly when some record has it |
| Storage.FirstOccurrencesDistinct | internal/storage/memory.go:182-192 | the first-occurrence list has no duplicates and lists exactly the names of its input |
| Storage.FirstOccurrencesOrdered | internal/storage/memory.go:182-192 | the names keep the order in which they first occur |
| Storage.ToSet | internal/storage/memory.go:218-224 | the set of the listed names |
| Storage.KeepByRepo | internal/storage/memory.go:226-263 | the records whose repository is in the keep set, in their original order |
| Fetcher.Fetcher.constructor | internal/fetcher/fetcher.go:19-25 | the fetcher holds the given configuration and store |
| Fetcher.Fetcher.FetchIssues | internal/fetcher/fetcher.go:48-60 | on a collector error the store is untouched and no rate is logged; otherwise the store holds exactly the returned issues, stamped now, and the returned rate is logged |
| Fetcher.Fetcher.FetchPullRequests | internal/fetcher/fetcher.go:77-89 | as FetchIssues, for pull requests |
| Fetcher.Fetcher.FetchBranchChecks | internal/fetcher/fetcher.go:106-118 | as FetchIssues, for branch checks |
| Config.Validate | internal/config/config.go:56-93 | no error exactly when the configuration is valid; otherwise the error is the messages of all problems, in the order they are checked, joined by "; " |
| Config.JoinErrors | internal/config/config.go:95-101 | the messages joined by "; "; a single message is returned as is |
| Config.JoinSnoc | internal/config/config.go:96-99 | appending a message appends "; " and the message to the joined text |
| Config.Messages | internal/config/config.go:60-87 | one message per problem, in order |
| Config.ProblemsEmptyIffValid | internal/config/config.go:57-93 | there are no problems exactly when the organization is set, there is at least one repository, every repository has a name and a branch, all intervals are positive and the port is in 1-65535 |
| Config.AllProblemsReported | internal/config/config.go:60-87 | each violated rule contributes its own problem: missing organization first, no repositories, each unnamed or branchless repository with its index, each non-positive interval, and a port out of range |
| Config.RepoProblemsPrefix | internal/config/config.go:66-73 | the repository loop only adds problems, and adds none exactly when every repository in range has a name and a branch |
| Config.TailPrefix | internal/config/config.go:75-87 | the interval and port checks only add problems, and add none exactly when all intervals are positive and the port is in range |
| Strings.LessIrreflexive | internal/handlers/dashboard.go:107-113 | no string is less than itself |
| Strings.LessTransitive | internal/handlers/dashboard.go:107-113 | Go's string comparison is transitive |
| Strings.LessTrichotomous | internal/handlers/dashboard.go:107-113 | any two strings are equal or one is less than the other, never both ways |
| Strings.NatToString | internal/config/config.go:68-71 | the decimal text of a number: digits only, with no leading zero |
| Strings.IntToString | internal/config/config.go:86 | the decimal text of an integer, starting with '-' exactly when it is negative |
| Strings.ParseNatToString | internal/config/config.go:68-71 | reading back the decimal text of a number gives the number |
| Sorting.SortBy | internal/handlers/builds.go:56-69 | an in-place sort: the result is a permutation of the input in which no element is less than one before it |
| Sorting.StringLessOrder | internal/handlers/builds.go:148 | string comparison is a strict weak ordering, as sort.Strings needs |
| Sorting.SortedDistinctAscending | internal/handlers/staleness.go:58-63 | sorted distinct names are strictly ascending |
| Sorting.DistinctFromMultiset | internal/handlers/staleness.go:58-61 | a sequence with no element twice in its multiset has distinct elements |
| Staleness.StaleRepos | internal/handlers/staleness.go:15-35 | none when no repositories are configured or none is stale; otherwise exactly the configured repositories never fetched or fetched more than the threshold ago |
| Staleness.SortedKeys | internal/handlers/staleness.go:53-64 | the keys, each once, in strictly ascending order; empty for an empty map |
| Staleness.ComputeStaleness | internal/handlers/staleness.go:37-51 | nothing on a cold start; otherwise the stale set for three times the interval, read from the store's times for the category, with its sorted names |
| Staleness.ThresholdIsInclusive | internal/handlers/staleness.go:26 | an age equal to the threshold is not stale; one unit more is stale |
| Staleness.StaleSetBounds | internal/handlers/staleness.go:24-29 | only configured repositories are stale, and every configured repository never fetched is |
| Params.SanitizeSort | internal/handlers/params.go:5-19 | a valid sort field is kept; anything else becomes "updated" |
| Params.SanitizeOrder | internal/handlers/params.go:21-26 | "asc" and "desc" are kept; anything else becomes "desc" |
| Params.GetNextOrder | internal/handlers/params.go:28-33 | "desc" exactly after "asc", otherwise "asc" |
| Params.NextOrderFlips | internal/handlers/params.go:21-33 | the next order always differs from the sanitised current one, and flipping twice gives the sanitised order back |
| Params.SanitizeIdempotent | internal/handlers/params.go:14-26 | sanitising a sanitised sort field or order changes nothing |
| Params.SanitizeRepo | internal/handlers/params.go:35-45 | an empty filter, or one naming a configured repository, is kept; anything else becomes empty |
| Params.Paginate | internal/handlers/params.go:47-70 | (0, 0, 0) for no items or no page size; otherwise the ceiling page count and a non-empty window of at most one page: the requested page, clamped to the first or last page |
| Params.CeilingDivision | internal/handlers/params.go:54 | (total + size - 1) / size is the least page count that holds total items |
| Params.PageStartBelowTotal | internal/handlers/params.go:58-64 | the start of an existing page lies inside the items |
| Checks.ClassifyCheck | internal/github/checks.go:3-20 | "running" exactly for an unfinished status; "success" exactly for a finished check concluding "success"; "failure" for every other finished check |
| Checks.OtherConclusionsFail | internal/github/checks.go:9-10 | a completed check with conclusion failure, timed_out, cancelled, action_required, neutral, stale or none is a failure |
| Review.StatusOf | internal/github/review.go:3-8 | changes_requested exactly when some reviewer requests changes; otherwise approved exactly when some reviewer approves; otherwise pending |
| Review.DeriveReviewStatus | internal/github/review.go:9-20 | the status derived from the set of the reviewers' states, in whatever order the map is visited |
| Review.StatusMonotone | internal/github/review.go:9-20 | more reviewers never turn changes_requested into anything else, nor approved into pending |
| Helpers.SanitizeLabelColor | internal/github/helpers.go:11-20 | the result is always six hex digits: the input when it is six hex digits, otherwise "cccccc" |
| Helpers.SanitizeIdempotent | internal/github/helpers.go:13-20 | sanitising twice is sanitising once |
| Helpers.RejectsMarkup | internal/github/helpers.go:11-20 | a colour holding markup or CSS punctuation is replaced by the fallback |
| GitHub.ToLabels | internal/github/issues.go:67-75 | one label per API label, in order, with its name and a sanitised colour that is always six hex digits |
| GitHub.ConvertLabels | internal/github/pulls.go:68-76 | the label loop builds exactly the converted labels |
| GitHub.Association | internal/github/issues.go:61-65 | with no association both fields stay empty and false; otherwise the association is copied and the record is external exactly when it is not OWNER, MEMBER or COLLABORATOR |
| GitHub.PagesExtend | internal/github/issues.go:29-84 | paging only adds records behind those already collected, and the call count never goes down |
| GitHub.ErrorKeepsEarlierPages | internal/github/issues.go:29-84 | without cancellation, a repository whose n-th list call fails is failed, keeps the records of the earlier pages in order, and made n + 1 calls |
| GitHub.CancelKeepsRepoSucceeded | internal/github/issues.go:29-33 | a cancellation noticed before a list call ends the repository's paging without marking it failed |
| IssuesCollector.ToIssue | internal/github/issues.go:50-75 | the issue carries the repository, number and title, converted labels and association fields of the API issue |
| IssuesCollector.IssueItems | internal/github/issues.go:44-48 | an API item yields no issue exactly when it is a pull request, otherwise its converted issue |
| IssuesCollector.ConvertIssue | internal/github/issues.go:50-75 | the conversion step builds exactly the converted issue |
| IssuesCollector.FetchRepo | internal/github/issues.go:28-84 | the paging loop for one repository computes exactly the paging outcome |
| IssuesCollector.RepoLoop | internal/github/issues.go:16-92 | the repository loop computes exactly the records, rate, calls, name lists and success count of the loop specification |
| IssuesCollector.NotAttempted | internal/github/issues.go:94-99 | the failed list followed by the names of the repositories from the first one not attempted on |
| IssuesCollector.DecideError | internal/github/issues.go:101-107 | the error is the context's error or "all N repos failed" exactly as the error rule gives, and none when something succeeded or nothing was configured |
| IssuesCollector.Conclude | internal/github/issues.go:93-109 | the result after the loop: records, succeeded list and rate as collected, the unattempted repositories appended to the failed ones, and the decided error |
| IssuesCollector.FetchIssues | internal/github/issues.go:12-110 | the result is exactly the fetch specification |
| IssuesCollector.Partition | internal/github/issues.go:86-99 | succeeded and failed are the attempted repositories split by outcome, in order. Repositories never attempted follow the failed ones. Together they account for every configured repository once. Repositories go unattempted only after a cancellation. |
| IssuesCollector.ErrorRule | internal/github/issues.go:101-107 | there is an error exactly when repositories are configured and none succeeded; it is the context's error when cancelled, else "all N repos failed" |
| IssuesCollector.AllFailing | internal/github/issues.go:35-107 | when every repository's first call fails, nothing succeeds, every repository is failed, and the error is "all N repos failed" |
| IssuesCollector.IssuesFromConfiguredRepos | internal/github/issues.go:50-51 | every collected issue belongs to a configured repository |
| IssuesCollector.ConvertRepository | internal/github/issues.go:44-77 | a page's issues are the converted non-pull-request items, each carrying the repository |
| IssuesCollector.ReposBookkeeping | internal/github/issues.go:86-91 | the loop keeps succeeded and failed consistent with each attempted repository's outcome, and the success count equal to the number succeeded |
| PullsCollector.ReduceReviews | internal/github/pulls.go:127-150 | the review loop computes exactly the reduction of the reviews |
| PullsCollector.ReduceProvenance | internal/github/pulls.go:127-150 | every kept reviewer comes from one of their own counted reviews, with its avatar, state and time |
| PullsCollector.ReduceKeepsLatest | internal/github/pulls.go:142-149 | a counted review not followed by that reviewer's dismissal leaves the reviewer present, with a time no earlier than that review |
| PullsCollector.ReduceForgetsDismissed | internal/github/pulls.go:135-140 | a dismissal not followed by that reviewer's counted review removes the reviewer |
| PullsCollector.ReduceKeysAgree | internal/github/pulls.go:137-148 | the reviewer map and the time map always have the same logins |
| PullsCollector.ListReviewers | internal/github/pulls.go:158-160 | the existing reviewers, followed by each reviewer of the map, exactly those |
| PullsCollector.Enumerate | internal/github/pulls.go:158-160 | one entry per map key: every reviewer of the map appears, and nothing else |
| PullsCollector.CountRuns | internal/github/pulls.go:196-220 | the kept checks (skipped ones dropped) and the number of each class among them |
| PullsCollector.TallyChecks | internal/github/pulls.go:196-220 | the checks are appended and each counter grows by the number of kept checks of its class; nothing else changes |
| PullsCollector.KeptChecksExact | internal/github/pulls.go:196-206 | no skipped check is kept, and every other check run is |
| PullsCollector.CountsAddUp | internal/github/pulls.go:211-219 | every kept check is counted exactly once |
| PullsCollector.FetchPRDetails | internal/github/pulls.go:106-229 | only the detail fields change. A failing review phase changes nothing. Otherwise reviewers and review status are set, then a failing full-PR call stops there. Otherwise mergeable state, review comments and checks are set too. The review status is that of the reduced reviews and the appended reviewers are exactly those of the reduction; the checks and counters grow by the kept check runs of each class. It fails exactly when the review phase, the full-PR call or a check page failed. |
| PullsCollector.ToPullRequest | internal/github/pulls.go:46-76 | the pull request carries the repository, number, converted labels and association fields, and no detail fields yet |
| PullsCollector.StripAll | internal/github/pulls.go:106-229 | the pull requests without the fields the details fill in, in order |
| PullsCollector.ConvertPR | internal/github/pulls.go:45-85 | apart from the detail fields, the pull request is the converted API pull request, and its detail fields are what FetchPRDetails makes of the details of its repository and number |
| PullsCollector.ConvertPage | internal/github/pulls.go:45-86 | the pull requests of one page follow those collected before, each converted and, detail fields aside, the converted API pull request, with the detail fields FetchPRDetails makes of its details |
| PullsCollector.FetchRepo | internal/github/pulls.go:29-92 | the paging loop for one repository computes the paging outcome; the pull requests with details are, detail fields aside, its records, and each one's detail fields are what FetchPRDetails makes of the details of its repository and number |
| PullsCollector.FetchPullRequests | internal/github/pulls.go:12-104 | the pull requests are, detail fields aside, those of the loop specification, each with the detail fields FetchPRDetails makes of the details of its repository and number, and the error is its error |
| PullsCollector.ErrorRule | internal/github/pulls.go:99-103 | an error exactly when repositories are configured, none succeeded and the context was cancelled |
| PullsCollector.NoErrorWithoutCancel | internal/github/pulls.go:99-103 | without cancellation there is never an error, even when every repository fails |
| PullsCollector.ReposSuccessBounded | internal/github/pulls.go:94-96 | the success count never exceeds the number of repositories and never drops to zero once positive |
| PullsCollector.EveryListedPRKept | internal/github/pulls.go:45-86 | every listed pull request is collected, in order, converted |
| Dashboard.IssueKeysOf | internal/handlers/dashboard.go:104-149 | the sort columns of each issue, in order |
| Dashboard.KeyLessOrder | internal/handlers/dashboard.go:104-149 | every column comparator is a strict weak ordering |
| Dashboard.SortIssues | internal/handlers/dashboard.go:104-149 | a permutation of the issues, ordered by the chosen column |
| Dashboard.OrderedMeaning | internal/handlers/dashboard.go:104-149 | column by column, "asc" means non-decreasing and any other order non-increasing; an unknown column orders by updated time |
| Dashboard.PageBounds | internal/handlers/dashboard.go:42-73 | the page is at least 1, the page count is the ceiling of n / 100, and the page's window starts inside the list exactly when the page exists; the window then holds at most 100 items |
| Dashboard.PageCount | internal/handlers/dashboard.go:63 | (n + 99) / 100 is the least number of pages of 100 that hold n items |
| Dashboard.PageSlice | internal/handlers/dashboard.go:70-73 | the window's items when it starts inside the list, else none |
| Dashboard.IssuesPage | internal/handlers/dashboard.go:37-97 | sort defaults to "updated" and order to "desc". The issues are a sorted permutation. The page is the requested one, at least 1. The page shows its window of the sorted issues, or nothing past the last page. The next order is the flipped order. |
| PullsHandler.PullKeysOf | internal/handlers/pulls.go:83-128 | the sort columns of each pull request, in order |
| PullsHandler.SortPullRequests | internal/handlers/pulls.go:83-128 | a permutation of the pull requests, ordered by the chosen column |
| PullsHandler.PullRequestsPage | internal/handlers/pulls.go:13-48 | as IssuesPage, for pull requests |
| Builds.IsMainBranchCases | internal/handlers/builds.go:300-302 | "main" and "master" are main branches, case-sensitively, and other names are not |
| Builds.Verdict | internal/handlers/builds.go:284-297 | Running when anything runs, else Failed when anything failed, else Passed when anything passed, else Unknown, each with its CSS class |
| Builds.ComputeBranchCounts | internal/handlers/builds.go:273-298 | each check is added to at most one counter, and the verdict is set from the counters |
| Builds.CountsAddUp | internal/handlers/builds.go:274-283 | running, failed, passed and uncounted checks add up to the number of checks |
| Builds.CountsBounded | internal/handlers/builds.go:274-283 | from zero counters, the counters sum to at most the number of checks |
| Builds.NeutralUncountedAsWritten | internal/handlers/builds.go:278 | as written, a single completed check concluding "neutral" counts nowhere and the branch is Unknown |
| Builds.NeutralCountsAsFailure | internal/handlers/builds_test.go:113-118 | with "neutral" among the failing conclusions, such a branch has one failure and is Failed |
| Builds.ClassifyAgrees | internal/handlers/builds.go:274-282 | with the failing conclusions as written, the branch counting agrees with ClassifyCheck on running and passed checks, what it counts as failed ClassifyCheck calls a failure, and a check is counted nowhere exactly when ClassifyCheck calls it a failure and its conclusion is none of failure, timed_out, action_required and cancelled |
| Builds.HasDetails | internal/handlers/builds.go:24-32 | true exactly when some branch has a failure or a running check |
| Builds.LastIndex | internal/handlers/builds.go:51-54 | a name listed twice keeps its later position in the index |
| Builds.Rank | internal/handlers/builds.go:55-64 | a configured repository's place, or the sentinel place after all configured ones exactly for an unknown one |
| Builds.ConfigBeforeOrder | internal/handlers/builds.go:56-69 | the configuration-order comparator is a strict weak ordering |
| Builds.SortByConfigOrder | internal/handlers/builds.go:48-70 | a permutation in which repositories come by configuration place, and repositories of the same place by name |
| Builds.ConfiguredFirst | internal/handlers/builds.go:48-49 | every configured repository sorts before every unknown one |
| Builds.IndexChecks | internal/handlers/builds.go:80-85 | the index of the branch checks by repository and branch |
| Builds.CheckIndexLastWins | internal/handlers/builds.go:81-85 | a key is indexed exactly when some branch check has it, and the last such check is the one kept |
| Builds.ConfiguredRows | internal/handlers/builds.go:98-113 | one row per configured branch, in configuration order, and whether any branch had data |
| Builds.ConfiguredBranchesShape | internal/handlers/builds.go:98-113 | each configured branch's row carries its check's data and the counts of line 278 as written when the branch is indexed, and is bare otherwise |
| Builds.ConfiguredRepos | internal/handlers/builds.go:92-118 | the configured repositories with data, in configuration order, and the set of configured names |
| Builds.ConfiguredPartAppend | internal/handlers/builds.go:93-118 | the configured part of two configuration lists is the two parts one after the other |
| Builds.ConfiguredPartMembers | internal/handlers/builds.go:93-118 | a repository is shown from the configuration exactly when it is configured and one of its branches is indexed |
| Builds.UnknownRepos | internal/handlers/builds.go:120-142 | one entry per unconfigured repository with checks, holding its branches in the order of the checks, counted as line 278 is written |
| Builds.UnknownBranchesNone | internal/handlers/builds.go:121-142 | a repository with no branch check has no unknown branches |
| Builds.UnknownBranchesAppend | internal/handlers/builds.go:121-142 | the unknown branches of two lists of checks are those of each, one after the other |
| Builds.AppendInOrder | internal/handlers/builds.go:149-151 | the list followed by the entries of the given names, in that order |
| Builds.GroupByRepository | internal/handlers/builds.go:77-154 | first the configured repositories with data, in configuration order, then each unconfigured repository with checks exactly once, in strictly ascending name order, with its branches |

## Left out

- The store's mutex and the deep copies: a Dafny value cannot be aliased, so a copy and the original are the same value.
- `Fetcher.Start` and the `run*Fetcher` ticker loops: they are goroutines and timers. Each fetch cycle is modelled on its own.
- `time.Now` in the store and the staleness check: it is the parameter `now`.
- The GitHub client, rate-limit logging (`LogRate`, `rateFromResponse`) and the Actions collector (`internal/github/client.go`, `internal/github/actions.go`): these are network code. The fetcher returns the rate it would log. Actions is not part of this model.
- `config.Load`: it reads a file and parses YAML.
- The HTTP handlers' request parsing, template rendering, `getAvailableCSS`, the template functions and `web/static/dashboard.js`: these are I/O and presentation. The page number arrives already converted by `strconv.Atoi`, where text it cannot parse is 0.
- `computeTextColor`, `linearize`, `computeLabelStyle` and the `LabelStyle` field: they are floating-point colour arithmetic.
- Go's fixed-width `int` overflow, for example `(page - 1) * 100` for a huge page number: integers here are unbounded.
- The sharing of each `*RepositoryStatus` by reference between the list and the unknown-repository map: the model builds the values directly.
- `sort.Slice` and `sort.Strings`: these are replaced by one insertion sort. Its contract is the one the callers rely on, a sorted permutation. The order of equal elements is not specified either way.
- The paging loops assume a response accompanies every successful call (`resp != nil`), as the dereference of `resp.NextPage` requires.
- PullsCollector.FetchPullRequests: does not model the rate it returns, which is the rate of whichever list or detail call came last.
- PullsCollector.FetchPRDetails: does not model the review and check-run pagination or its context checks step by step. They are summarised by `Details`: the reviews of all pages or none, the full pull request or none, and the check runs of the pages fetched with whether all pages came back.
- PullsCollector.ListReviewers: does not fix the order of the appended reviewers, because Go's map iteration order is unspecified. It states which reviewers are appended, not their order.
- Review.DeriveReviewStatus: iterates the map in an unspecified order. The result does not depend on that order, so the contract states it as a function of the set of states.

## Findings

| source | as written | input that shows it | evidently intended | confidence | as-written member | corrected member |
|---|---|---|---|---|---|---|
| internal/handlers/builds.go:278 | the failure case lists failure, timed_out, action_required and cancelled, so a completed check concluding "neutral" is counted nowhere | one check with Status "completed" and Conclusion "neutral": the branch has no failure and is Unknown | the package's own test case "neutral_counts_as_failure" (internal/handlers/builds_test.go:113-118) expects one failure and a Failed branch, as ClassifyCheck treats every non-success conclusion | not executed | Builds.NeutralUncountedAsWritten | Builds.NeutralCountsAsFailure |

The build view (`Builds.GroupByRepository` and the members it calls) counts with the four failing conclusions as written, `Builds.FailingAsWritten`. The corrected set `Builds.Failing`, with "neutral" added, is stated only in `Builds.NeutralCountsAsFailure`.
