# Job table handlers — a Dafny model

This project models the job-management handlers of a small REST service. It
keeps a `jobs` table (id, name, customer, start date, end date, status) and
offers three operations on it:

- `create_job` (`POST /jobs/`) checks that a name and a customer are given,
  then appends the record with a fresh id.
- `query_jobs` (`GET /jobs/`) checks its date range and sort parameters,
  filters, orders and returns one page.
- The delete handler (`DELETE /jobs/{jobId}`, named `query_jobs_by_customer`
  in the source) removes the record with a given id and returns it.

The table is an abstract in-memory store, and each request's update is one
atomic step.

Files and modules:

- `wrappers.dfy` (`Wrappers`): `Option` (an absent value, SQL NULL, an omitted parameter) and `Result` (a value or an HTTP error).
- `models.dfy` (`JobModels`): the `Status` enum (`InProgress`, `Completed`, in declaration order), the `Job` row, the `JobBase` request body (`JobInput`), the six HTTP errors with their exact codes and detail strings, and `Blank`, which is Python's `not s` on an optional string (absent or empty).
- `ordering.dfy` (`Ordering`): defines the five whitelisted sort keys and the two directions. It gives a total preorder on jobs for each key and direction. Text is ordered lexicographically by character code, dates as integers, and the status by declaration order. A NULL sorts before every value. It also holds an insertion sort that gives one ordering the store may return.
- `query.dfy` (`JobQuery`): `query_jobs` as a pure function of the table's rows. It holds the validation predicates, the five filters, the page window, and lemmas that relate the result to a reference description (any ordered selection of the matching rows).
- `store.dfy` (`JobStore`): the class `JobTable`. It holds the rows as a `seq<Job>` and the next auto-increment id. Its methods are `CreateJob` and `DeleteJob`, which update the table, and `ListJobs`, which only reads it. Lemmas and a scenario combine the handlers.

Modelling choices:

- Dates are integer day numbers.
- `create_job` takes a record whose fields may all be absent, as the request body allows. It rejects a blank name first, then a blank customer. In both cases the table and the id counter are unchanged.
- For `query_jobs`, the source checks the date range first, then the sort field, then the sort order. The first failing check decides the error.
- The date bounds are inclusive (`startDate >= startAfter`, `endDate <= endBefore`), as in the code, even though the parameter names suggest strict bounds. A row without the compared date never matches.
- An empty `name` or `customer` filter is skipped. A given `status` filter is always applied, because Python enum members are always truthy, including `InProgress`, whose value is 0.
- `page >= 1` and `limit >= 0` are preconditions. The source does not validate them.
- The store promises no order between rows with equal keys, so the page lemma (`QueryIsPageOfSelection`) holds for any sorted selection of the matching rows. The insertion sort is only one witness.
- Ids are unique and below the counter (`JobTable.Valid`). A new row gets the counter's value, so its id is not used by any existing row.
- Where the design description and the code differ, the model follows the code. The description mentions bulk create, worker endpoints and a list-workers route that collides with the jobs route. None of these is in the handler file modelled here.

## Model

| member | source | states |
|---|---|---|
| `JobStore.JobTable.constructor` | models.py:22-25 | An empty table whose first id will be 1; the id invariant holds. |
| `JobStore.JobTable.CreateJob` | main.py:53-63 | A blank name gives 400 "Name field required", checked before the customer. A blank customer with a present name gives 400 "Customer field required". On either error the rows and the counter are unchanged. Otherwise the new row carries the submitted fields and an id no existing row has, and it is appended after the unchanged old rows. The id invariant is preserved. |
| `JobStore.JobTable.DeleteJob` | main.py:133-140 | An absent id gives 404 "Job not found" and leaves the table unchanged. Otherwise it returns the row with that id and removes it. Afterwards exactly the rows with other ids remain, the table is one shorter, and the counter and the id invariant are kept. |
| `JobStore.FindById` | main.py:135-137 | Returns the position of the first row with the id; `None` exactly when no row has it. |
| `JobStore.RemoveAtKeepsOthers` | main.py:138-140 | Removing one row keeps the other ids unique and leaves exactly the rows whose id differs from the removed one. |
| `JobStore.JobTable.ListJobs` | main.py:80-122 | The listing handler returns `QueryJobs` of the current rows and changes no state (no `modifies`). |
| `JobStore.CreatedJobIsListed` | main.py:60-63 | After a successful create, an unfiltered first page large enough for the table lists the new row exactly once. |
| `JobStore.DeletedJobIsNotListed` | main.py:138-140 | Once no row has an id, no query result contains a row with that id. |
| `JobQuery.QueryJobs` | main.py:80-122 | Three errors, in precedence order: 400 on an invalid date range (both bounds given and `startAfter >= endBefore`), then an unknown sort field, then a sort order that is neither "asc" nor "desc". The result is `Ok` iff none applies. Then: at most `limit` rows, at most as many as the table has. Every returned row is in the table and passes every filter. The rows are non-decreasing (asc) or non-increasing (desc) by the sort key. |
| `JobQuery.Filter` | main.py:95-108 | Every matching row is kept as many times as the table holds it, and no other row is kept. |
| `JobQuery.Paginate` | main.py:121-122 | Returns the window that starts at row `(page-1)*limit` and holds `limit` rows, cut short at the end: its length, and each element by position. |
| `JobQuery.PageLength` | main.py:121-122 | A page holds at most `limit` rows and no more than the rows it is cut from. |
| `JobQuery.PageOfSortedIsSorted` | main.py:113-122 | A page cut from a sorted list is sorted. |
| `JobQuery.PageRowsMatch` | main.py:95-122 | Every row of a page of the filtered rows is in the table and passes every filter. |
| `JobQuery.QueryIsPageOfSelection` | main.py:93-122 | An accepted query returns rows `[(page-1)*limit, page*limit)` of some list that holds exactly the matching rows, with multiplicity, sorted by the requested key and direction. |
| `JobQuery.SelectionLength` | main.py:113-122 | Any two such ordered selections have the same length, so the page bounds do not depend on how ties are broken. |
| `JobQuery.FirstPageIsComplete` | main.py:121-122 | When page 1 has room for the whole table, every matching row is returned as often as the table holds it. |
| `JobQuery.UnfilteredMatchesAll` | main.py:95-108 | With every filter absent or empty, every row matches. |
| `JobQuery.FilterAll` | main.py:93-108 | With every filter absent or empty, filtering returns the table unchanged. |
| `JobQuery.DefaultQuery` | main.py:88-93 | With the defaults (page 1, limit 100, `startDate`, `asc`, no filters), the result is accepted. It holds min(100, table size) rows and is the prefix of a sorted permutation of the table, ascending by start date. |
| `Ordering.ParseSortField` | main.py:111-116 | A sort key is found exactly for the five whitelisted names, and its column name is the requested string. |
| `Ordering.ParseFieldName` | main.py:111-116 | Parsing a key's column name gives back that key. |
| `Ordering.ParseSortOrder` | main.py:113-118 | A direction is found exactly for "asc" and "desc", and "asc" is the ascending one. |
| `Ordering.TextLeTotal` | models.py:26-27 | Any two strings are comparable in the text order. |
| `Ordering.TextLeTransitive` | models.py:26-27 | The text order is transitive. |
| `Ordering.KeyLeTotal` | models.py:26-30 | For each sort key, any two jobs are comparable. |
| `Ordering.KeyLeTransitive` | models.py:26-30 | For each sort key, the order on jobs is transitive. |
| `Ordering.BeforeTotal` | main.py:113-116 | For each key and direction, any two jobs are comparable. |
| `Ordering.BeforeTransitive` | main.py:113-116 | For each key and direction, the order on jobs is transitive. |
| `Ordering.Insert` | main.py:122 | Inserting into a sorted list gives a sorted list with the same rows plus the new one. |
| `Ordering.SortJobs` | main.py:122 | The result is sorted by the key and direction, and is a permutation of the input. |

## Left out

- Connection set-up in `database.py` (environment loading, the MySQL URL, the engine, the session factory) is not modelled: it is configuration and I/O.
- The per-request session `get_db` and table creation at import are not modelled, and neither are `commit` or `refresh`. Each handler's update is treated as one atomic step.
- HTTP routing, status codes as transport responses, and pydantic's parsing and coercion of the query string and body are not modelled. Parameters arrive already typed, dates as day numbers.
- `WorkerBase` and the `Worker` table (models.py:33-39) are not modelled, because no handler in the modelled file uses them. Bulk create and the worker endpoints from the design description are not in this handler file.
- Store collation is left out: MySQL may compare strings case-insensitively, but the model uses exact equality and a code-point order. The `String(50)` column limits are left out because the store enforces them, not the handlers.
- `Ordering.KeyLe`: NULLs sort before every value. That is MySQL's placement, applied to both directions, so NULLs come last in `desc`. Other stores place NULLs differently.
- `JobQuery.QueryJobs`: the rows within a run of equal keys come in the reference sort's order (stable insertion). The store guarantees no such order, so `QueryIsPageOfSelection` states the result only up to that choice.
- A non-positive `page` and a negative `limit` are not modelled, because the handler does not validate them. They are excluded by preconditions.
- Concurrent requests are not modelled; the handlers add no coordination of their own.
