/** The pull-request page (internal/handlers/pulls.go): the same column sort
    and paging as the issues page, over pull requests. */
module PullsHandler {
  import opened Types
  import Sorting
  import Params
  import Dashboard

  function PullKeys(p: PullRequest): Dashboard.Keys
  {
    Dashboard.Keys(p.Repository, p.Number, p.Title, p.Author, p.CreatedAt, p.UpdatedAt)
  }

  function PullKeysOf(s: seq<PullRequest>): (ks: seq<Dashboard.Keys>)
    ensures |ks| == |s|
    ensures forall k :: 0 <= k < |s| ==> ks[k] == PullKeys(s[k])
  {
    seq(|s|, k requires 0 <= k < |s| => PullKeys(s[k]))
  }

  /** sortPullRequests: the pull requests reordered in place by the chosen
      column, ascending for "asc" and descending otherwise. */
  method SortPullRequests(a: array<PullRequest>, sortBy: string, order: string)
    modifies a
    ensures multiset(a[..]) == multiset(old(a[..]))
    ensures Dashboard.Ordered(PullKeysOf(a[..]), sortBy, order)
  {
    var less := (x: PullRequest, y: PullRequest) => Dashboard.KeyLess(sortBy, order, PullKeys(x), PullKeys(y));
    Dashboard.KeyLessOrder(sortBy, order);
    Sorting.SortBy(a, less);
  }

  /** PullRequests, without the rendering: the defaults for sort and order,
      the sort, and the page of pull requests shown. */
  method PullRequestsPage(prs: seq<PullRequest>, pageParam: int, sortParam: string, orderParam: string)
    returns (sorted: seq<PullRequest>, pagePRs: seq<PullRequest>, page: int, totalPages: int,
             sortBy: string, order: string, nextOrder: string)
    ensures sortBy == if sortParam == "" then Params.DefaultSort else sortParam
    ensures order == if orderParam == "" then Params.Descending else orderParam
    ensures nextOrder == Params.GetNextOrder(order)
    ensures multiset(sorted) == multiset(prs)
    ensures Dashboard.Ordered(PullKeysOf(sorted), sortBy, order)
    ensures page == if pageParam < 1 then 1 else pageParam
    ensures |sorted| > 0 ==>
              (totalPages - 1) * Dashboard.IssuesPerPage < |sorted| <= totalPages * Dashboard.IssuesPerPage
    ensures |sorted| == 0 ==> totalPages == 0 && pagePRs == []
    ensures page > totalPages ==> pagePRs == []
    ensures page <= totalPages ==>
              var start := (page - 1) * Dashboard.IssuesPerPage;
              var end := start + Dashboard.IssuesPerPage;
              && 0 <= start < |sorted|
              && pagePRs == sorted[start..if end > |sorted| then |sorted| else end]
  {
    sortBy := sortParam;
    if sortBy == "" {
      sortBy := Params.DefaultSort;
    }
    order := orderParam;
    if order == "" {
      order := Params.Descending;
    }

    var a := new PullRequest[|prs|](k requires 0 <= k < |prs| => prs[k]);
    assert a[..] == prs;
    SortPullRequests(a, sortBy, order);
    sorted := a[..];
    assert |sorted| == |multiset(sorted)| == |multiset(prs)| == |prs|;

    var start, end;
    page, totalPages, start, end := Dashboard.PageBounds(|sorted|, pageParam);
    pagePRs := Dashboard.PageSlice(sorted, start, end);
    nextOrder := Params.GetNextOrder(order);
  }
}
