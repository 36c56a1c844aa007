/** The issues page (internal/handlers/dashboard.go): sorting by a column
    and cutting the sorted list into pages of 100. Rendering, the CSS file
    listing and the request itself are not part of this model; the query
    values arrive as parameters, `page` already converted by strconv.Atoi
    (which gives 0 for text it cannot parse). */
module Dashboard {
  import opened Types
  import Strings
  import Sorting
  import Params

  const IssuesPerPage := 100

  /** The columns a listing can be sorted by. Issues and pull requests share
      them. */
  datatype Keys = Keys(Repository: string, Number: int, Title: string, Author: string,
                       CreatedAt: Time, UpdatedAt: Time)

  function IssueKeys(i: Issue): Keys
  {
    Keys(i.Repository, i.Number, i.Title, i.Author, i.CreatedAt, i.UpdatedAt)
  }

  function IssueKeysOf(s: seq<Issue>): (ks: seq<Keys>)
    ensures |ks| == |s|
    ensures forall k :: 0 <= k < |s| ==> ks[k] == IssueKeys(s[k])
  {
    seq(|s|, k requires 0 <= k < |s| => IssueKeys(s[k]))
  }

  /** The `less` that sortIssues hands to sort.Slice: by the chosen column,
      ascending for "asc" and descending for any other order; a column other
      than the five named ones sorts by UpdatedAt. */
  predicate KeyLess(sortBy: string, order: string, x: Keys, y: Keys)
  {
    var asc := order == Params.Ascending;
    if sortBy == "repo" then
      (if asc then Strings.Less(x.Repository, y.Repository) else Strings.Less(y.Repository, x.Repository))
    else if sortBy == "number" then
      (if asc then x.Number < y.Number else x.Number > y.Number)
    else if sortBy == "title" then
      (if asc then Strings.Less(x.Title, y.Title) else Strings.Less(y.Title, x.Title))
    else if sortBy == "author" then
      (if asc then Strings.Less(x.Author, y.Author) else Strings.Less(y.Author, x.Author))
    else if sortBy == "created" then
      (if asc then x.CreatedAt < y.CreatedAt else x.CreatedAt > y.CreatedAt)
    else
      (if asc then x.UpdatedAt < y.UpdatedAt else x.UpdatedAt > y.UpdatedAt)
  }

  /** No entry sorts before one ahead of it. */
  predicate Ordered(ks: seq<Keys>, sortBy: string, order: string)
  {
    forall i, j :: 0 <= i < j < |ks| ==> !KeyLess(sortBy, order, ks[j], ks[i])
  }

  /** Every column comparator is a strict weak ordering, as sort.Slice needs. */
  lemma KeyLessOrder(sortBy: string, order: string)
    ensures forall x, y :: !KeyLess(sortBy, order, x, y) || !KeyLess(sortBy, order, y, x)
    ensures forall x, y, z :: !KeyLess(sortBy, order, y, x) && !KeyLess(sortBy, order, z, y) ==>
                              !KeyLess(sortBy, order, z, x)
  {
    forall x: Keys, y: Keys ensures !KeyLess(sortBy, order, x, y) || !KeyLess(sortBy, order, y, x) {
      Strings.LessTrichotomous(x.Repository, y.Repository);
      Strings.LessTrichotomous(x.Title, y.Title);
      Strings.LessTrichotomous(x.Author, y.Author);
    }
    forall x: Keys, y: Keys, z: Keys
      | !KeyLess(sortBy, order, y, x) && !KeyLess(sortBy, order, z, y)
      ensures !KeyLess(sortBy, order, z, x)
    {
      var asc := order == Params.Ascending;
      if sortBy == "repo" {
        if asc {
          Strings.NotLessTransitive(x.Repository, y.Repository, z.Repository);
        } else {
          Strings.NotLessTransitive(z.Repository, y.Repository, x.Repository);
        }
      } else if sortBy == "title" {
        if asc {
          Strings.NotLessTransitive(x.Title, y.Title, z.Title);
        } else {
          Strings.NotLessTransitive(z.Title, y.Title, x.Title);
        }
      } else if sortBy == "author" {
        if asc {
          Strings.NotLessTransitive(x.Author, y.Author, z.Author);
        } else {
          Strings.NotLessTransitive(z.Author, y.Author, x.Author);
        }
      }
    }
  }

  /** sortIssues: the issues reordered in place by the chosen column. */
  method SortIssues(a: array<Issue>, sortBy: string, order: string)
    modifies a
    ensures multiset(a[..]) == multiset(old(a[..]))
    ensures Ordered(IssueKeysOf(a[..]), sortBy, order)
  {
    var less := (x: Issue, y: Issue) => KeyLess(sortBy, order, IssueKeys(x), IssueKeys(y));
    KeyLessOrder(sortBy, order);
    Sorting.SortBy(a, less);
  }

  /** What an ordered listing means column by column: ascending means
      non-decreasing (oldest first for times), any other order non-increasing
      (newest first), and an unknown column orders by UpdatedAt. */
  lemma OrderedMeaning(ks: seq<Keys>, sortBy: string, order: string)
    requires Ordered(ks, sortBy, order)
    ensures sortBy == "repo" ==> forall i, j :: 0 <= i < j < |ks| ==>
              ks[i].Repository == ks[j].Repository
              || if order == Params.Ascending then Strings.Less(ks[i].Repository, ks[j].Repository)
                 else Strings.Less(ks[j].Repository, ks[i].Repository)
    ensures sortBy == "number" ==> forall i, j :: 0 <= i < j < |ks| ==>
              if order == Params.Ascending then ks[i].Number <= ks[j].Number else ks[i].Number >= ks[j].Number
    ensures sortBy == "title" ==> forall i, j :: 0 <= i < j < |ks| ==>
              ks[i].Title == ks[j].Title
              || if order == Params.Ascending then Strings.Less(ks[i].Title, ks[j].Title)
                 else Strings.Less(ks[j].Title, ks[i].Title)
    ensures sortBy == "author" ==> forall i, j :: 0 <= i < j < |ks| ==>
              ks[i].Author == ks[j].Author
              || if order == Params.Ascending then Strings.Less(ks[i].Author, ks[j].Author)
                 else Strings.Less(ks[j].Author, ks[i].Author)
    ensures sortBy == "created" ==> forall i, j :: 0 <= i < j < |ks| ==>
              if order == Params.Ascending then ks[i].CreatedAt <= ks[j].CreatedAt
              else ks[i].CreatedAt >= ks[j].CreatedAt
    ensures sortBy !in {"repo", "number", "title", "author", "created"} ==> forall i, j :: 0 <= i < j < |ks| ==>
              if order == Params.Ascending then ks[i].UpdatedAt <= ks[j].UpdatedAt
              else ks[i].UpdatedAt >= ks[j].UpdatedAt
  {
    forall i, j | 0 <= i < j < |ks|
      ensures ks[i].Repository == ks[j].Repository
              || Strings.Less(ks[i].Repository, ks[j].Repository) || Strings.Less(ks[j].Repository, ks[i].Repository)
      ensures ks[i].Title == ks[j].Title
              || Strings.Less(ks[i].Title, ks[j].Title) || Strings.Less(ks[j].Title, ks[i].Title)
      ensures ks[i].Author == ks[j].Author
              || Strings.Less(ks[i].Author, ks[j].Author) || Strings.Less(ks[j].Author, ks[i].Author)
    {
      Strings.LessTrichotomous(ks[i].Repository, ks[j].Repository);
      Strings.LessTrichotomous(ks[i].Title, ks[j].Title);
      Strings.LessTrichotomous(ks[i].Author, ks[j].Author);
    }
  }

  /** The page arithmetic of Dashboard: the page forced to at least 1, the
      page count, and the window [start, end) of the list it shows, which is
      empty once start reaches the end of the list. */
  method PageBounds(n: nat, requested: int) returns (page: int, totalPages: int, start: int, end: int)
    ensures page == if requested < 1 then 1 else requested
    ensures n == 0 ==> totalPages == 0
    ensures n > 0 ==> (totalPages - 1) * IssuesPerPage < n <= totalPages * IssuesPerPage
    ensures start == (page - 1) * IssuesPerPage
    ensures start < n <==> page <= totalPages
    ensures start < n ==> 0 <= start < end <= n && end - start <= IssuesPerPage
    ensures start < n ==> end == if start + IssuesPerPage > n then n else start + IssuesPerPage
  {
    page := requested;
    if page < 1 {
      page := 1;
    }
    totalPages := (n + IssuesPerPage - 1) / IssuesPerPage;
    start := (page - 1) * IssuesPerPage;
    end := start + IssuesPerPage;
    if end > n {
      end := n;
    }
    PageCount(n, totalPages);
    if page <= totalPages {
      assert (page - 1) * IssuesPerPage <= (totalPages - 1) * IssuesPerPage;
    } else {
      assert (page - 1) * IssuesPerPage >= totalPages * IssuesPerPage;
    }
  }

  /** (n + 99) / 100 is the number of pages of 100 that n items fill. */
  lemma PageCount(n: nat, totalPages: int)
    requires totalPages == (n + IssuesPerPage - 1) / IssuesPerPage
    ensures n == 0 ==> totalPages == 0
    ensures totalPages >= 0
    ensures n > 0 ==> (totalPages - 1) * IssuesPerPage < n <= totalPages * IssuesPerPage
  {
    var r := (n + IssuesPerPage - 1) % IssuesPerPage;
    assert totalPages * IssuesPerPage + r == n + IssuesPerPage - 1;
  }

  /** The items a page shows: s[start:end] when start lies inside s, else none. */
  function PageSlice<T>(s: seq<T>, start: int, end: int): (r: seq<T>)
    requires start < |s| ==> 0 <= start <= end <= |s|
    ensures start < |s| ==> r == s[start..end]
    ensures start >= |s| ==> r == []
  {
    if start < |s| then s[start..end] else []
  }

  /** Dashboard, without the rendering: empty sort and order default to
      "updated" and "desc" (any other value is used as given), the issues
      are sorted, and one page of them is selected. */
  method IssuesPage(issues: seq<Issue>, pageParam: int, sortParam: string, orderParam: string)
    returns (sorted: seq<Issue>, pageIssues: seq<Issue>, page: int, totalPages: int,
             sortBy: string, order: string, nextOrder: string)
    ensures sortBy == if sortParam == "" then Params.DefaultSort else sortParam
    ensures order == if orderParam == "" then Params.Descending else orderParam
    ensures nextOrder == Params.GetNextOrder(order)
    ensures multiset(sorted) == multiset(issues)
    ensures Ordered(IssueKeysOf(sorted), sortBy, order)
    ensures page == if pageParam < 1 then 1 else pageParam
    ensures |sorted| > 0 ==> (totalPages - 1) * IssuesPerPage < |sorted| <= totalPages * IssuesPerPage
    ensures |sorted| == 0 ==> totalPages == 0 && pageIssues == []
    ensures page > totalPages ==> pageIssues == []
    ensures page <= totalPages ==>
              var start := (page - 1) * IssuesPerPage;
              && 0 <= start < |sorted|
              && pageIssues == sorted[start..if start + IssuesPerPage > |sorted| then |sorted| else start + IssuesPerPage]
  {
    sortBy := sortParam;
    if sortBy == "" {
      sortBy := Params.DefaultSort;
    }
    order := orderParam;
    if order == "" {
      order := Params.Descending;
    }

    var a := new Issue[|issues|](k requires 0 <= k < |issues| => issues[k]);
    assert a[..] == issues;
    SortIssues(a, sortBy, order);
    sorted := a[..];
    assert |sorted| == |multiset(sorted)| == |multiset(issues)| == |issues|;

    var start, end;
    page, totalPages, start, end := PageBounds(|sorted|, pageParam);
    pageIssues := PageSlice(sorted, start, end);
    nextOrder := Params.GetNextOrder(order);
  }
}
