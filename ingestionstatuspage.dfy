/** The job list of the ingestion status page (`pages/IngestionStatus.js`):
    the search filter, the page bookkeeping, the rows of one page and the
    duration column. React state is one value replaced by each handler;
    times are milliseconds since the epoch, and the clock is a parameter. */
module IngestionStatusPage {
  import opened Wrappers
  import opened Text
  import opened Js
  import opened Seqs
  import Helpers
  import Formatters

  datatype Job = Job(jobId: string, mappingName: string, status: string)

  /** The job mentions the term in its id, mapping name or status, ignoring
      the case of ASCII letters. */
  predicate Matches(job: Job, term: string)
  {
    var t := Lower(term);
    Contains(Lower(job.jobId), t) || Contains(Lower(job.mappingName), t) || Contains(Lower(job.status), t)
  }

  /** The jobs the search shows: all of them for an empty term, otherwise
      the matching ones in their original order. */
  function FilterJobs(jobs: seq<Job>, searchTerm: string): (r: seq<Job>)
    ensures searchTerm == "" ==> r == jobs
    ensures |r| <= |jobs|
  {
    if searchTerm != "" then Filter(jobs, job => Matches(job, searchTerm)) else jobs
  }

  /** A non-empty search keeps exactly the matching jobs. */
  lemma FilterJobsMembers(jobs: seq<Job>, searchTerm: string, job: Job)
    requires searchTerm != ""
    ensures job in FilterJobs(jobs, searchTerm) <==> job in jobs && Matches(job, searchTerm)
  {
    FilterMembers(jobs, j => Matches(j, searchTerm), job);
  }

  /** The filter keeps the list's order: filtering a concatenation is
      concatenating the filtered parts. */
  lemma FilterJobsOrder(a: seq<Job>, b: seq<Job>, searchTerm: string)
    ensures FilterJobs(a + b, searchTerm) == FilterJobs(a, searchTerm) + FilterJobs(b, searchTerm)
  {
    if searchTerm != "" {
      FilterAppend(a, b, j => Matches(j, searchTerm));
    }
  }

  /** Typing the term in capitals finds the same jobs. */
  lemma FilterJobsIgnoresCase(jobs: seq<Job>, searchTerm: string)
    ensures FilterJobs(jobs, Upper(searchTerm)) == FilterJobs(jobs, searchTerm)
  {
    Helpers.LowerOfUpper(searchTerm);
    if searchTerm != "" {
      assert Upper(searchTerm) != "";
      FilterCongruent(jobs, j => Matches(j, Upper(searchTerm)), j => Matches(j, searchTerm));
    }
  }

  // ---- page state -----------------------------------------------------------

  datatype PageState = PageState(
    jobs: seq<Job>, filteredJobs: seq<Job>, searchTerm: string, page: int, rowsPerPage: int)

  function InitialState(): (st: PageState)
    ensures Consistent(st) && st.page == 0 && st.rowsPerPage == 10
  {
    PageState([], [], "", 0, 10)
  }

  /** The shown list is the filter of the loaded jobs by the current term. */
  predicate Consistent(st: PageState)
  {
    st.filteredJobs == FilterJobs(st.jobs, st.searchTerm)
  }

  /** The effect that runs after the term or the job list changed: refilter
      and go back to the first page. */
  function Refilter(st: PageState): (r: PageState)
    ensures Consistent(r) && r.page == 0
    ensures r.jobs == st.jobs && r.searchTerm == st.searchTerm && r.rowsPerPage == st.rowsPerPage
  {
    st.(filteredJobs := FilterJobs(st.jobs, st.searchTerm), page := 0)
  }

  /** `handleSearchChange`: a new term refilters and resets the page; the term
      already set changes no state, so the effect does not run. */
  function SearchChange(st: PageState, term: string): (r: PageState)
    ensures r.searchTerm == term && r.jobs == st.jobs && r.rowsPerPage == st.rowsPerPage
    ensures term != st.searchTerm ==> r.page == 0 && Consistent(r)
    ensures term == st.searchTerm ==> r == st
  {
    if term == st.searchTerm then st else Refilter(st.(searchTerm := term))
  }

  /** A fetch stores a fresh job array, which always runs the effect. */
  function JobsLoaded(st: PageState, jobs: seq<Job>): (r: PageState)
    ensures r.jobs == jobs && r.searchTerm == st.searchTerm && r.rowsPerPage == st.rowsPerPage
    ensures r.page == 0 && Consistent(r)
  {
    Refilter(st.(jobs := jobs))
  }

  /** `handleChangePage`. */
  function ChangePage(st: PageState, newPage: int): (r: PageState)
    ensures r.page == newPage
    ensures r.(page := st.page) == st
  {
    st.(page := newPage)
  }

  /** `handleChangeRowsPerPage`: the new page size, back on the first page. */
  function ChangeRowsPerPage(st: PageState, rowsPerPage: int): (r: PageState)
    ensures r.rowsPerPage == rowsPerPage && r.page == 0
    ensures r.(rowsPerPage := st.rowsPerPage, page := st.page) == st
  {
    st.(rowsPerPage := rowsPerPage, page := 0)
  }

  /** Every handler keeps the shown list in step with the term and the jobs. */
  lemma HandlersKeepConsistent(st: PageState, term: string, jobs: seq<Job>, n: int)
    requires Consistent(st)
    ensures Consistent(SearchChange(st, term)) && Consistent(JobsLoaded(st, jobs))
    ensures Consistent(ChangePage(st, n)) && Consistent(ChangeRowsPerPage(st, n))
  {
  }

  // ---- the rows of one page -------------------------------------------------

  /** The table body: the jobs of page `page`. */
  function DisplayedRows(st: PageState): (r: seq<Job>)
    ensures st.rowsPerPage >= 0 ==> |r| <= st.rowsPerPage
  {
    var start := st.page * st.rowsPerPage;
    if st.rowsPerPage >= 0 then
      SliceLength(st.filteredJobs, start, st.rowsPerPage);
      Slice(st.filteredJobs, start, start + st.rowsPerPage)
    else Slice(st.filteredJobs, start, start + st.rowsPerPage)
  }

  /** The number of pages the pager offers for `count` rows. */
  function PageCount(count: nat, rowsPerPage: int): (r: nat)
    requires rowsPerPage > 0
    ensures (r - 1) * rowsPerPage < count <= r * rowsPerPage || (count == 0 && r == 0)
  {
    (count + rowsPerPage - 1) / rowsPerPage
  }

  /** The rows shown on pages `0` to `pages - 1`, one page after the other. */
  function PagesUpTo(st: PageState, pages: nat): seq<Job>
    decreases pages
  {
    if pages == 0 then []
    else PagesUpTo(st, pages - 1) + DisplayedRows(st.(page := pages - 1))
  }

  lemma {:induction false} PagesUpToPrefix(st: PageState, pages: nat)
    requires st.rowsPerPage >= 0
    ensures PagesUpTo(st, pages) == Slice(st.filteredJobs, 0, pages * st.rowsPerPage)
    decreases pages
  {
    var s := st.filteredJobs;
    var rpp := st.rowsPerPage;
    if pages == 0 {
      assert Slice(s, 0, 0) == [];
    } else {
      PagesUpToPrefix(st, pages - 1);
      var b := (pages - 1) * rpp;
      PageSlice(st, pages - 1);
      NextPageStart(pages, rpp);
      SliceAdjacent(s, 0, b, b + rpp);
    }
  }

  lemma PageSlice(st: PageState, p: int)
    ensures DisplayedRows(st.(page := p)) == Slice(st.filteredJobs, p * st.rowsPerPage, p * st.rowsPerPage + st.rowsPerPage)
  {
  }

  lemma NextPageStart(pages: nat, rpp: nat)
    requires pages > 0
    ensures 0 <= (pages - 1) * rpp && (pages - 1) * rpp + rpp == pages * rpp
  {
  }

  /** Paging through the shown list rows up every job exactly once: the pages
      the pager offers, concatenated, are the list itself, and each of them
      holds at least one job. */
  lemma PagesCoverList(st: PageState)
    requires st.rowsPerPage > 0
    ensures var n := PageCount(|st.filteredJobs|, st.rowsPerPage);
      PagesUpTo(st, n) == st.filteredJobs &&
      forall p :: 0 <= p < n ==> |DisplayedRows(st.(page := p))| > 0
  {
    var s := st.filteredJobs;
    var rpp := st.rowsPerPage;
    var n := PageCount(|s|, rpp);
    PagesUpToPrefix(st, n);
    assert Slice(s, 0, n * rpp) == s;
    forall p | 0 <= p < n
      ensures |DisplayedRows(st.(page := p))| > 0
    {
      PageNonEmpty(s, rpp, n, p);
    }
  }

  lemma PageNonEmpty(s: seq<Job>, rpp: int, n: nat, p: int)
    requires rpp > 0 && 0 <= p < n && (n - 1) * rpp < |s|
    ensures |Slice(s, p * rpp, p * rpp + rpp)| > 0
  {
    Formatters.MulMonotone(rpp, p, n - 1);
    Formatters.MulMonotone(rpp, 0, p);
  }

  // ---- duration column ------------------------------------------------------

  /** `calculateDuration`: nothing without a start; otherwise the time from
      the start to the end, or to `now` while the job runs, as hours, minutes
      and seconds, leaving out leading units that are zero. */
  function CalculateDuration(startTime: Option<int>, endTime: Option<int>, now: int): (r: string)
    ensures startTime.None? <==> r == ""
  {
    if startTime.None? then ""
    else
      var end := if endTime.Some? then endTime.value else now;
      var diffMs := end - startTime.value;
      var diffSec := diffMs / 1000;
      var diffMin := diffSec / 60;
      var diffHour := diffMin / 60;
      if diffHour > 0 then
        IntToString(diffHour) + "h " + IntToString(diffMin % 60) + "m " + IntToString(diffSec % 60) + "s"
      else if diffMin > 0 then IntToString(diffMin) + "m " + IntToString(diffSec % 60) + "s"
      else IntToString(diffSec) + "s"
  }

  /** The printed fields are the whole hours, minutes and seconds of the
      elapsed time, with the minutes and seconds after the first unit below
      60. */
  lemma CalculateDurationFields(start: int, endTime: Option<int>, now: int)
    ensures var diff := (if endTime.Some? then endTime.value else now) - start;
      var h := diff / 3600000; var m := diff / 60000; var s := diff / 1000;
      var r := CalculateDuration(Some(start), endTime, now);
      (h > 0 ==> r == IntToString(h) + "h " + IntToString(m % 60) + "m " + IntToString(s % 60) + "s" &&
                 h * 60 + m % 60 == m && m * 60 + s % 60 == s) &&
      (h <= 0 && m > 0 ==> r == IntToString(m) + "m " + IntToString(s % 60) + "s" && m * 60 + s % 60 == s) &&
      (m <= 0 ==> r == IntToString(s) + "s") &&
      0 <= m % 60 < 60 && 0 <= s % 60 < 60
  {
    var diff := (if endTime.Some? then endTime.value else now) - start;
    Formatters.DivDiv(diff, 1000, 60);
    Formatters.DivDiv(diff, 60000, 60);
  }

  lemma CalculateDurationExamples()
    ensures CalculateDuration(None, Some(5), 9) == ""
    ensures CalculateDuration(Some(1000), Some(62000), 0) == "1m 1s"
    ensures CalculateDuration(Some(1000), None, 3662000) == "1h 1m 1s"
  {
    assert IntToString(1) == "1";
  }
}
