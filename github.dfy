/** What the issue and pull-request collectors of internal/github share: the
    GitHub list endpoints seen as scripted answers, the context's
    cancellation, the conversion of labels and author associations, and the
    paging loop both collectors run for each repository. */
module GitHub {
  import opened Types
  import Helpers

  /** A label as the API returns it. */
  datatype RawLabel = RawLabel(Name: string, Color: string)

  /** The converted labels: names as given, colours sanitised. */
  function ToLabels(raw: seq<RawLabel>): (ls: seq<Label>)
    ensures |ls| == |raw|
    ensures forall k :: 0 <= k < |raw| ==>
              ls[k].Name == raw[k].Name && ls[k].Color == Helpers.SanitizeLabelColor(raw[k].Color)
              && Helpers.IsHexColor(ls[k].Color)
  {
    seq(|raw|, k requires 0 <= k < |raw| => Label(raw[k].Name, Helpers.SanitizeLabelColor(raw[k].Color)))
  }

  /** The label loop of the collectors: one converted label per API label,
      in order. */
  method ConvertLabels(raw: seq<RawLabel>) returns (labels: seq<Label>)
    ensures labels == ToLabels(raw)
  {
    labels := [];
    for k := 0 to |raw|
      invariant labels == ToLabels(raw[..k])
    {
      var color := Helpers.SanitizeLabelColor(raw[k].Color);
      labels := labels + [Label(raw[k].Name, color)];
    }
    assert raw[..|raw|] == raw;
  }

  /** isInternal: members of the organization are OWNER, MEMBER or
      COLLABORATOR, compared case-sensitively. */
  predicate IsInternal(association: string)
  {
    association in {"OWNER", "MEMBER", "COLLABORATOR"}
  }

  /** AuthorAssociation and IsExternal of a converted record: both stay at
      their zero values when the API sends no association. */
  function Association(a: Option<string>): (r: (string, bool))
    ensures a.None? ==> r == ("", false)
    ensures a.Some? ==> r.0 == a.value && (r.1 <==> a.value !in {"OWNER", "MEMBER", "COLLABORATOR"})
  {
    if a.Some? then (a.value, !IsInternal(a.value)) else ("", false)
  }

  /** One answer of a list endpoint: an error, or a page of items with the
      rate-limit state and whether a next page exists (NextPage != 0). */
  datatype Response<T> = ApiError | Page(items: seq<T>, rate: RateInfo, more: bool)

  /** The context: it reports an error once the given number of list calls
      has been made, or never. */
  datatype Cancel = Never | AfterCalls(n: nat)

  predicate Cancelled(cancel: Cancel, calls: nat)
  {
    cancel.AfterCalls? && calls >= cancel.n
  }

  /** The error a collector reports: the context's own error, or "all N
      repos failed". */
  datatype FetchError = ContextError | AllReposFailed(count: nat)

  /** What has been collected so far, the last rate state and the number of
      list calls made. */
  datatype Progress<U> = Progress(items: seq<U>, rate: RateInfo, calls: nat)

  /** The collected items after paging one repository, and whether its
      repository counts as failed. */
  datatype RepoOutcome<U> = RepoOutcome(progress: Progress<U>, failed: bool)

  /** The records a page yields: each API item converts to zero or more records. */
  function Convert<T, U>(conv: (string, T) -> seq<U>, repo: string, items: seq<T>): seq<U>
  {
    if items == [] then [] else Convert(conv, repo, items[..|items| - 1]) + conv(repo, items[|items| - 1])
  }

  /** The paging loop for one repository, from the j-th answer on: the
      context is checked before each call; a cancellation stops the loop
      without failing the repository; an error (or no answer at all) fails
      it; a page adds its records and ends the loop when no page follows. */
  function Pages<T, U>(conv: (string, T) -> seq<U>, repo: string, script: seq<Response<T>>, j: nat,
                       p: Progress<U>, cancel: Cancel): RepoOutcome<U>
    decreases |script| - j
  {
    if Cancelled(cancel, p.calls) then RepoOutcome(p, false)
    else if j >= |script| || script[j].ApiError? then RepoOutcome(p.(calls := p.calls + 1), true)
    else
      var page := script[j];
      var next := Progress(p.items + Convert(conv, repo, page.items), page.rate, p.calls + 1);
      if page.more then Pages(conv, repo, script, j + 1, next, cancel) else RepoOutcome(next, false)
  }

  /** The records of a run of pages, in order. */
  function Fetched<T, U>(conv: (string, T) -> seq<U>, repo: string, pages: seq<Response<T>>): seq<U>
  {
    if pages == [] then []
    else
      var last := pages[|pages| - 1];
      Fetched(conv, repo, pages[..|pages| - 1]) + (if last.Page? then Convert(conv, repo, last.items) else [])
  }

  lemma FetchedSnoc<T, U>(conv: (string, T) -> seq<U>, repo: string, script: seq<Response<T>>, j: nat)
    requires j < |script| && script[j].Page?
    ensures Fetched(conv, repo, script[..j + 1]) == Fetched(conv, repo, script[..j]) + Convert(conv, repo, script[j].items)
  {
    assert script[..j + 1][..j] == script[..j];
  }

  /** Paging only ever adds: what was collected before stays, in front, and
      the call count never goes down. */
  lemma {:induction false} PagesExtend<T, U>(conv: (string, T) -> seq<U>, repo: string, script: seq<Response<T>>, j: nat,
                                           p: Progress<U>, cancel: Cancel)
    ensures var o := Pages(conv, repo, script, j, p, cancel);
            p.items <= o.progress.items && p.calls <= o.progress.calls
    decreases |script| - j
  {
    if !Cancelled(cancel, p.calls) && j < |script| && script[j].Page? && script[j].more {
      var next := Progress(p.items + Convert(conv, repo, script[j].items), script[j].rate, p.calls + 1);
      PagesExtend(conv, repo, script, j + 1, next, cancel);
    }
  }

  /** With no cancellation, a repository whose n-th call fails ends up failed
      and keeps the records of the n pages fetched before. */
  lemma {:induction false} ErrorKeepsEarlierPages<T, U>(conv: (string, T) -> seq<U>, repo: string, script: seq<Response<T>>,
                                                      j: nat, n: nat, p: Progress<U>)
    requires j <= n <= |script|
    requires forall k :: j <= k < n ==> script[k].Page? && script[k].more
    requires n == |script| || script[n].ApiError?
    ensures var o := Pages(conv, repo, script, j, p, Never);
            o.failed && o.progress.items == p.items + Fetched(conv, repo, script[j..n])
            && o.progress.calls == p.calls + (n - j) + 1
    decreases n - j
  {
    if j == n {
      assert script[j..n] == [];
    } else {
      assert script[j].Page? && script[j].more;
      var next := Progress(p.items + Convert(conv, repo, script[j].items), script[j].rate, p.calls + 1);
      ErrorKeepsEarlierPages(conv, repo, script, j + 1, n, next);
      ErrorStep(conv, repo, script, j, n, p);
    }
  }

  lemma ErrorStep<T, U>(conv: (string, T) -> seq<U>, repo: string, script: seq<Response<T>>, j: nat, n: nat,
                        p: Progress<U>)
    requires j < n <= |script| && script[j].Page? && script[j].more
    requires var next := Progress(p.items + Convert(conv, repo, script[j].items), script[j].rate, p.calls + 1);
             var o := Pages(conv, repo, script, j + 1, next, Never);
             o.failed && o.progress.items == next.items + Fetched(conv, repo, script[j + 1..n])
             && o.progress.calls == next.calls + (n - j - 1) + 1
    ensures var o := Pages(conv, repo, script, j, p, Never);
            o.failed && o.progress.items == p.items + Fetched(conv, repo, script[j..n])
            && o.progress.calls == p.calls + (n - j) + 1
  {
    var next := Progress(p.items + Convert(conv, repo, script[j].items), script[j].rate, p.calls + 1);
    PagesNext(conv, repo, script, j, p, Never);
    FetchedSlice(conv, repo, script, j, n);
    assert p.items + Fetched(conv, repo, script[j..n]) == next.items + Fetched(conv, repo, script[j + 1..n]);
  }

  /** One step of the paging loop: a page with a next page moves on to it. */
  lemma PagesNext<T, U>(conv: (string, T) -> seq<U>, repo: string, script: seq<Response<T>>, j: nat,
                        p: Progress<U>, cancel: Cancel)
    requires !Cancelled(cancel, p.calls) && j < |script| && script[j].Page? && script[j].more
    ensures Pages(conv, repo, script, j, p, cancel)
            == Pages(conv, repo, script, j + 1,
                     Progress(p.items + Convert(conv, repo, script[j].items), script[j].rate, p.calls + 1), cancel)
  {
  }

  lemma FetchedSlice<T, U>(conv: (string, T) -> seq<U>, repo: string, script: seq<Response<T>>, j: nat, n: nat)
    requires j < n <= |script| && script[j].Page?
    ensures Fetched(conv, repo, script[j..n]) == Convert(conv, repo, script[j].items) + Fetched(conv, repo, script[j + 1..n])
  {
    var run := script[j..n];
    assert run[0] == script[j] && run[1..] == script[j + 1..n];
    FetchedFront(conv, repo, run);
  }

  lemma {:induction false} FetchedFront<T, U>(conv: (string, T) -> seq<U>, repo: string, pages: seq<Response<T>>)
    requires pages != [] && pages[0].Page?
    ensures Fetched(conv, repo, pages) == Convert(conv, repo, pages[0].items) + Fetched(conv, repo, pages[1..])
  {
    if |pages| > 1 {
      var init := pages[..|pages| - 1];
      FetchedFront(conv, repo, init);
      assert init[1..] == pages[1..][..|pages[1..]| - 1];
    }
  }

  /** A cancellation noticed at the top of the paging loop ends it without
      marking the repository failed: records of earlier pages stay, and the
      repository counts as succeeded. */
  lemma CancelKeepsRepoSucceeded<T, U>(conv: (string, T) -> seq<U>, repo: string, script: seq<Response<T>>, j: nat,
                                      p: Progress<U>, cancel: Cancel)
    requires Cancelled(cancel, p.calls)
    ensures Pages(conv, repo, script, j, p, cancel) == RepoOutcome(p, false)
  {
  }
}
