/** The record shapes: the `Status` enum and the `Job` row of the `jobs`
    table, the `JobBase` request body, and the HTTP errors the handlers raise. */
module JobModels {
  import opened Wrappers

  /** Declared in this order, with values 0 and 1; the store orders the
      column by declaration order. */
  datatype Status = InProgress | Completed

  /** Position of a status in declaration order (its enum value). */
  function StatusRank(s: Status): nat {
    match s
    case InProgress => 0
    case Completed => 1
  }

  /** Calendar dates are day numbers. */
  type Day = int

  /** One row of the `jobs` table. Every column except the id may be NULL. */
  datatype Job = Job(
    id: int,
    name: Option<string>,
    customer: Option<string>,
    startDate: Option<Day>,
    endDate: Option<Day>,
    status: Option<Status>)

  /** The request body `JobBase`: every field optional. */
  datatype JobInput = JobInput(
    name: Option<string>,
    customer: Option<string>,
    startDate: Option<Day>,
    endDate: Option<Day>,
    status: Option<Status>)

  /** The row built from a request body once the store has assigned `id`. */
  function NewJob(id: int, input: JobInput): Job {
    Job(id, input.name, input.customer, input.startDate, input.endDate, input.status)
  }

  /** Python's `not s` for an optional string: absent or empty. */
  predicate Blank(s: Option<string>) {
    s.None? || s.value == ""
  }

  /** An HTTP error: status code and detail message. */
  datatype ApiError = ApiError(code: int, detail: string)

  const NameRequired := ApiError(400, "Name field required")
  const CustomerRequired := ApiError(400, "Customer field required")
  const BadDateRange := ApiError(400, "startAfter must be before endBefore")
  const BadSortField := ApiError(400, "Invalid sort field")
  const BadSortOrder := ApiError(400, "Invalid sort order. Use 'asc' or 'desc'.")
  const JobNotFound := ApiError(404, "Job not found")
}
