/** The `GET /jobs/` handler `query_jobs`: parameter validation, the
    conjunctive filters, the ordering and the page window, as a function of
    the table's contents (so it cannot change them). */
module JobQuery {
  import opened Wrappers
  import opened JobModels
  import opened Ordering

  /** The query-string parameters. `page` and `limit` are plain integers;
      `sortBy` and `sortOrder` are the raw strings the client sent. */
  datatype QueryParams = QueryParams(
    name: Option<string>,
    customer: Option<string>,
    startAfter: Option<Day>,
    endBefore: Option<Day>,
    status: Option<Status>,
    page: int,
    limit: int,
    sortBy: string,
    sortOrder: string)

  /** What a request without query parameters gets. */
  const Defaults := QueryParams(None, None, None, None, None, 1, 100, "startDate", "asc")

  /* ---------- Validation ---------- */

  /** Both date bounds given and the "after" bound not strictly earlier. */
  predicate DateRangeRejected(q: QueryParams) {
    q.startAfter.Some? && q.endBefore.Some? && q.startAfter.value >= q.endBefore.value
  }

  predicate SortFieldRejected(q: QueryParams) {
    q.sortBy !in SortFieldNames
  }

  predicate SortOrderRejected(q: QueryParams) {
    q.sortOrder != "asc" && q.sortOrder != "desc"
  }

  predicate Accepted(q: QueryParams) {
    !DateRangeRejected(q) && !SortFieldRejected(q) && !SortOrderRejected(q)
  }

  /* ---------- Filters ---------- */

  /** A text filter that is absent or empty is skipped; otherwise the column
      must equal it. */
  predicate TextFilter(filter: Option<string>, column: Option<string>) {
    Blank(filter) || column == Some(filter.value)
  }

  /** `startDate >= startAfter`, inclusive; a job without a start date fails. */
  predicate StartFilter(q: QueryParams, j: Job) {
    q.startAfter.None? || (j.startDate.Some? && j.startDate.value >= q.startAfter.value)
  }

  /** `endDate <= endBefore`, inclusive; a job without an end date fails. */
  predicate EndFilter(q: QueryParams, j: Job) {
    q.endBefore.None? || (j.endDate.Some? && j.endDate.value <= q.endBefore.value)
  }

  /** Every enum member is truthy, so any given status is applied. */
  predicate StatusFilter(q: QueryParams, j: Job) {
    q.status.None? || j.status == q.status
  }

  /** The conjunction of the five filters. */
  predicate Matches(q: QueryParams, j: Job) {
    && TextFilter(q.name, j.name)
    && TextFilter(q.customer, j.customer)
    && StartFilter(q, j)
    && EndFilter(q, j)
    && StatusFilter(q, j)
  }

  /** The rows of `s` that pass every filter: each matching row as often as
      it occurs in `s`, and no other row. */
  function Filter(q: QueryParams, s: seq<Job>): (r: seq<Job>)
    ensures forall x :: multiset(r)[x] == if Matches(q, x) then multiset(s)[x] else 0
    ensures |r| <= |s|
    decreases |s|
  {
    if s == [] then []
    else
      var rest := Filter(q, s[1..]);
      assert s == [s[0]] + s[1..];
      if Matches(q, s[0]) then [s[0]] + rest else rest
  }

  /* ---------- Pagination ---------- */

  function Min(a: int, b: int): int {
    if a <= b then a else b
  }

  /** The first row of page `page` of `limit` rows each. */
  function Skip(page: int, limit: int): int {
    (page - 1) * limit
  }

  /** `r` is the window of `all` starting at row `Skip(page, limit)` that holds
      `limit` rows, cut short at the end of `all`. */
  ghost predicate IsPage(all: seq<Job>, page: int, limit: int, r: seq<Job>)
    requires page >= 1 && limit >= 0
  {
    var skip := Skip(page, limit);
    && |r| == (if skip >= |all| then 0 else Min(limit, |all| - skip))
    && forall i :: 0 <= i < |r| ==> r[i] == all[skip + i]
  }

  /** `OFFSET (page - 1) * limit LIMIT limit`. */
  function Paginate(all: seq<Job>, page: int, limit: int): (r: seq<Job>)
    requires page >= 1 && limit >= 0
    ensures IsPage(all, page, limit, r)
  {
    var skip := Skip(page, limit);
    assert skip >= 0 by { assert page - 1 >= 0; }
    if skip >= |all| then [] else all[skip..Min(skip + limit, |all|)]
  }

  /* ---------- The handler ---------- */

  function SortFieldOf(q: QueryParams): SortField
    requires !SortFieldRejected(q)
  {
    ParseSortField(q.sortBy).value
  }

  function SortOrderOf(q: QueryParams): SortOrder
    requires !SortOrderRejected(q)
  {
    ParseSortOrder(q.sortOrder).value
  }

  /** `query_jobs`: the date-range check, then the sort-field check, then
      the sort-order check; if all pass, the requested page of the matching
      rows in the requested order. */
  function QueryJobs(table: seq<Job>, q: QueryParams): (r: Result<seq<Job>, ApiError>)
    requires q.page >= 1 && q.limit >= 0
    ensures DateRangeRejected(q) ==> r == Err(BadDateRange)
    ensures !DateRangeRejected(q) && SortFieldRejected(q) ==> r == Err(BadSortField)
    ensures !DateRangeRejected(q) && !SortFieldRejected(q) && SortOrderRejected(q) ==> r == Err(BadSortOrder)
    ensures r.Ok? <==> Accepted(q)
    ensures r.Ok? ==> |r.value| <= q.limit && |r.value| <= |table|
    ensures r.Ok? ==> forall j :: j in r.value ==> j in table && Matches(q, j)
    ensures r.Ok? ==> Sorted(SortFieldOf(q), SortOrderOf(q), r.value)
  {
    if DateRangeRejected(q) then Err(BadDateRange)
    else match ParseSortField(q.sortBy)
      case None => Err(BadSortField)
      case Some(f) =>
        match ParseSortOrder(q.sortOrder)
        case None => Err(BadSortOrder)
        case Some(o) =>
          var filtered := Filter(q, table);
          var ordered := SortJobs(f, o, filtered);
          var page := Paginate(ordered, q.page, q.limit);
          PageLength(ordered, q.page, q.limit, page);
          PageOfSortedIsSorted(f, o, ordered, q.page, q.limit, page);
          PageRowsMatch(q, table, ordered, q.page, q.limit, page);
          Ok(page)
  }

  lemma PageLength(all: seq<Job>, page: int, limit: int, r: seq<Job>)
    requires page >= 1 && limit >= 0
    requires IsPage(all, page, limit, r)
    ensures |r| <= limit && |r| <= |all|
  {
  }

  lemma PageOfSortedIsSorted(f: SortField, o: SortOrder, all: seq<Job>, page: int, limit: int, r: seq<Job>)
    requires page >= 1 && limit >= 0
    requires Sorted(f, o, all) && IsPage(all, page, limit, r)
    ensures Sorted(f, o, r)
  {
    var skip := Skip(page, limit);
    assert skip >= 0 by { assert page - 1 >= 0; }
    forall i, j | 0 <= i < j < |r| ensures Before(f, o, r[i], r[j]) {
      assert r[i] == all[skip + i] && r[j] == all[skip + j];
    }
  }

  lemma PageRowsMatch(q: QueryParams, table: seq<Job>, all: seq<Job>, page: int, limit: int, r: seq<Job>)
    requires page >= 1 && limit >= 0
    requires forall x :: multiset(all)[x] == if Matches(q, x) then multiset(table)[x] else 0
    requires IsPage(all, page, limit, r)
    ensures forall j :: j in r ==> j in table && Matches(q, j)
  {
    var skip := Skip(page, limit);
    assert skip >= 0 by { assert page - 1 >= 0; }
    forall j | j in r ensures j in table && Matches(q, j) {
      var i :| 0 <= i < |r| && r[i] == j;
      assert all[skip + i] == j;
      assert j in multiset(all);
    }
  }

  /* ---------- Properties relating the handler to a reference description ---------- */

  /** `sel` lists exactly the matching rows of `table` (with multiplicity),
      ordered by the requested key and direction. Rows with equal keys may
      appear in any order: the store promises none. */
  ghost predicate OrderedSelection(table: seq<Job>, q: QueryParams, sel: seq<Job>)
    requires !SortFieldRejected(q) && !SortOrderRejected(q)
  {
    && Sorted(SortFieldOf(q), SortOrderOf(q), sel)
    && forall x :: multiset(sel)[x] == if Matches(q, x) then multiset(table)[x] else 0
  }

  /** An accepted query returns rows `[(page-1)*limit, page*limit)` of an
      ordered selection of the table. */
  lemma QueryIsPageOfSelection(table: seq<Job>, q: QueryParams)
    requires q.page >= 1 && q.limit >= 0
    requires Accepted(q)
    ensures QueryJobs(table, q).Ok?
    ensures exists sel :: OrderedSelection(table, q, sel) && IsPage(sel, q.page, q.limit, QueryJobs(table, q).value)
  {
    var f, o := SortFieldOf(q), SortOrderOf(q);
    var sel := SortJobs(f, o, Filter(q, table));
    assert OrderedSelection(table, q, sel);
    assert QueryJobs(table, q).value == Paginate(sel, q.page, q.limit);
  }

  /** Any two ordered selections of the same rows have the same length, so
      the page bounds do not depend on how ties were broken. */
  lemma SelectionLength(table: seq<Job>, q: QueryParams, a: seq<Job>, b: seq<Job>)
    requires !SortFieldRejected(q) && !SortOrderRejected(q)
    requires OrderedSelection(table, q, a) && OrderedSelection(table, q, b)
    ensures |a| == |b|
  {
    assert multiset(a) == multiset(b);
    assert |multiset(a)| == |multiset(b)|;
  }

  /** When the first page is large enough to hold every matching row, each
      matching row of the table is returned, as often as the table holds it. */
  lemma FirstPageIsComplete(table: seq<Job>, q: QueryParams)
    requires q.page == 1 && q.limit >= |table|
    requires Accepted(q)
    ensures QueryJobs(table, q).Ok?
    ensures forall x :: multiset(QueryJobs(table, q).value)[x] == if Matches(q, x) then multiset(table)[x] else 0
  {
    var f, o := SortFieldOf(q), SortOrderOf(q);
    var filtered := Filter(q, table);
    var sel := SortJobs(f, o, filtered);
    var r := QueryJobs(table, q).value;
    assert r == Paginate(sel, q.page, q.limit);
    assert |sel| == |filtered| by {
      assert |multiset(sel)| == |multiset(filtered)|;
    }
    assert r == sel by {
      assert |r| == |sel|;
      forall i | 0 <= i < |r| ensures r[i] == sel[i] { }
    }
  }

  /** With no filters the matching rows are the whole table. */
  predicate Unfiltered(q: QueryParams) {
    Blank(q.name) && Blank(q.customer) && q.startAfter.None? && q.endBefore.None? && q.status.None?
  }

  lemma UnfilteredMatchesAll(q: QueryParams, j: Job)
    requires Unfiltered(q)
    ensures Matches(q, j)
  {
  }

  /** A request with no parameters: the first `min(100, |table|)` rows of
      the table in ascending `startDate` order. */
  lemma DefaultQuery(table: seq<Job>)
    ensures QueryJobs(table, Defaults).Ok?
    ensures |QueryJobs(table, Defaults).value| == Min(100, |table|)
    ensures Sorted(ByStartDate, Asc, QueryJobs(table, Defaults).value)
    ensures exists sel :: && Sorted(ByStartDate, Asc, sel) && multiset(sel) == multiset(table)
                          && QueryJobs(table, Defaults).value == sel[..Min(100, |table|)]
  {
    var q := Defaults;
    var filtered := Filter(q, table);
    assert filtered == table by { FilterAll(q, table); }
    var sel := SortJobs(ByStartDate, Asc, filtered);
    var r := QueryJobs(table, q).value;
    assert r == Paginate(sel, 1, 100);
    assert |sel| == |table| by {
      assert |multiset(sel)| == |multiset(table)|;
    }
    assert r == sel[..Min(100, |table|)];
  }

  /** Without filters, filtering keeps the table as it is. */
  lemma {:induction false} FilterAll(q: QueryParams, s: seq<Job>)
    requires Unfiltered(q)
    ensures Filter(q, s) == s
    decreases |s|
  {
    if s != [] {
      FilterAll(q, s[1..]);
      assert s == [s[0]] + s[1..];
    }
  }
}
