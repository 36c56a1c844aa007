/** Query-parameter sanitising and pagination (internal/handlers/params.go). */
module Params {

  const ItemsPerPage := 100

  /** The sort keys a request may ask for. */
  const ValidSortFields: set<string> := {"repo", "number", "title", "author", "created", "updated"}

  const DefaultSort := "updated"
  const Ascending := "asc"
  const Descending := "desc"

  /** sanitizeSort: a known sort key passes unchanged (case-sensitively);
      anything else becomes "updated". */
  function SanitizeSort(sortBy: string): (r: string)
    ensures r in ValidSortFields
    ensures r == sortBy <==> sortBy in ValidSortFields
    ensures sortBy !in ValidSortFields ==> r == DefaultSort
  {
    if sortBy in ValidSortFields then sortBy else DefaultSort
  }

  /** sanitizeOrder: "asc" and "desc" pass unchanged, anything else is "desc". */
  function SanitizeOrder(order: string): (r: string)
    ensures r == Ascending || r == Descending
    ensures r == order <==> order == Ascending || order == Descending
    ensures order != Ascending ==> r == Descending
  {
    if order == Ascending || order == Descending then order else Descending
  }

  /** getNextOrder: the order a column header link toggles to. */
  function GetNextOrder(current: string): (r: string)
    ensures r == Ascending || r == Descending
    ensures r == Descending <==> current == Ascending
  {
    if current == Ascending then Descending else Ascending
  }

  /** The toggle always offers the opposite of the order in effect. */
  lemma NextOrderFlips(current: string)
    ensures GetNextOrder(current) != SanitizeOrder(current)
    ensures GetNextOrder(GetNextOrder(current)) == SanitizeOrder(current)
  {
  }

  /** Sanitising is idempotent. */
  lemma SanitizeIdempotent(sortBy: string, order: string)
    ensures SanitizeSort(SanitizeSort(sortBy)) == SanitizeSort(sortBy)
    ensures SanitizeOrder(SanitizeOrder(order)) == SanitizeOrder(order)
  {
  }

  /** sanitizeRepo: the repository when it is non-empty and one of the valid
      names, otherwise "" (no filter). The list is searched front to back. */
  function SanitizeRepo(repo: string, validRepos: seq<string>): (r: string)
    ensures r == repo || r == ""
    ensures r == repo <==> repo == "" || repo in validRepos
    ensures r != "" <==> repo != "" && repo in validRepos
  {
    if repo == "" then ""
    else if |validRepos| == 0 then ""
    else if validRepos[0] == repo then repo
    else SanitizeRepo(repo, validRepos[1..])
  }

  /** The window paginate computes: items [start, end) of page totalPages. */
  datatype Window = Window(start: int, end: int, totalPages: int)

  /** paginate: clamp the 1-based page into [1, totalPages] and return its
      item window; nothing to show gives (0, 0, 0). */
  function Paginate(total: int, page: int, pageSize: int): (w: Window)
    ensures total <= 0 || pageSize <= 0 ==> w == Window(0, 0, 0)
    ensures total > 0 && pageSize > 0 ==>
              // totalPages is the ceiling of total / pageSize
              && (w.totalPages - 1) * pageSize < total <= w.totalPages * pageSize
              && w.totalPages >= 1
              // a non-empty window inside the items, at most one page long
              && 0 <= w.start < w.end <= total
              && w.end - w.start <= pageSize
              && w.end == (if w.start + pageSize > total then total else w.start + pageSize)
              // the requested page, or the nearest existing one
              && (1 <= page <= w.totalPages ==> w.start == (page - 1) * pageSize)
              && (page < 1 ==> w.start == 0)
              && (page > w.totalPages ==> w.start == (w.totalPages - 1) * pageSize)
  {
    if total <= 0 || pageSize <= 0 then Window(0, 0, 0)
    else
      var totalPages := (total + pageSize - 1) / pageSize;
      var p1 := if page < 1 then 1 else page;
      var p2 := if p1 > totalPages then totalPages else p1;
      var s1 := (p2 - 1) * pageSize;
      var start := if s1 > total then total else s1;
      var e1 := start + pageSize;
      var end := if e1 > total then total else e1;
      CeilingDivision(total, pageSize);
      PageStartBelowTotal(p2, totalPages, total, pageSize);
      Window(start, end, totalPages)
  }

  lemma CeilingDivision(total: int, pageSize: int)
    requires total > 0 && pageSize > 0
    ensures var n := (total + pageSize - 1) / pageSize;
            n >= 1 && (n - 1) * pageSize < total <= n * pageSize
  {
    var n := (total + pageSize - 1) / pageSize;
    var r := (total + pageSize - 1) % pageSize;
    assert n * pageSize + r == total + pageSize - 1;
    assert 0 <= r < pageSize;
  }

  lemma PageStartBelowTotal(page: int, totalPages: int, total: int, pageSize: int)
    requires 1 <= page <= totalPages && pageSize > 0
    requires (totalPages - 1) * pageSize < total
    ensures 0 <= (page - 1) * pageSize < total
  {
    assert (page - 1) * pageSize <= (totalPages - 1) * pageSize;
  }
}
