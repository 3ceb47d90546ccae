/** The `jobs` table and the two handlers that change it: `create_job`
    (`POST /jobs/`) and the delete-by-id handler (`DELETE /jobs/{jobId}`).
    Each request's update is one atomic step. */
module JobStore {
  import opened Wrappers
  import opened JobModels
  import JobQuery

  /** No two rows share an id. */
  predicate UniqueIds(s: seq<Job>) {
    forall i, j :: 0 <= i < j < |s| ==> s[i].id != s[j].id
  }

  /** The id does not occur in `s`. */
  predicate IdAbsent(s: seq<Job>, id: int) {
    forall k :: 0 <= k < |s| ==> s[k].id != id
  }

  /** `.filter(Job.id == jobId).first()`: the position of the first row with
      that id, or `None` when no row has it. */
  function FindById(s: seq<Job>, id: int): (r: Option<nat>)
    ensures r.Some? ==> r.value < |s| && s[r.value].id == id
    ensures r.Some? ==> forall k :: 0 <= k < r.value ==> s[k].id != id
    ensures r.None? <==> IdAbsent(s, id)
    decreases |s|
  {
    if s == [] then None
    else if s[0].id == id then Some(0)
    else match FindById(s[1..], id)
      case None => None
      case Some(k) => Some(k + 1)
  }

  /** `s` with the row at position `k` taken out. */
  function RemoveAt(s: seq<Job>, k: nat): seq<Job>
    requires k < |s|
  {
    s[..k] + s[k + 1..]
  }

  /** Removing the row with a given id keeps the ids unique and leaves
      exactly the rows with other ids. */
  lemma RemoveAtKeepsOthers(s: seq<Job>, k: nat)
    requires k < |s| && UniqueIds(s)
    ensures UniqueIds(RemoveAt(s, k))
    ensures |RemoveAt(s, k)| == |s| - 1
    ensures forall j :: j in RemoveAt(s, k) <==> (j in s && j.id != s[k].id)
  {
    var r := RemoveAt(s, k);
    assert forall i :: 0 <= i < |r| ==> r[i] == if i < k then s[i] else s[i + 1];
    forall j | j in s && j.id != s[k].id ensures j in r {
      var i :| 0 <= i < |s| && s[i] == j;
      assert i != k;
      if i < k { assert r[i] == j; } else { assert r[i - 1] == j; }
    }
  }

  /** The table: its rows, in storage order, and the next auto-increment id. */
  class JobTable {
    var jobs: seq<Job>
    var nextId: int

    /** Ids are positive, below the counter, and unique. */
    ghost predicate Valid()
      reads this
    {
      && 1 <= nextId
      && (forall k :: 0 <= k < |jobs| ==> 1 <= jobs[k].id < nextId)
      && UniqueIds(jobs)
    }

    constructor ()
      ensures Valid() && jobs == [] && nextId == 1
    {
      jobs := [];
      nextId := 1;
    }

    /** `create_job`: a blank name is rejected first, then a blank customer;
        otherwise the row is appended with a fresh id and returned. */
    method CreateJob(input: JobInput) returns (r: Result<Job, ApiError>)
      requires Valid()
      modifies this
      ensures Valid()
      ensures Blank(input.name) ==> r == Err(NameRequired)
      ensures !Blank(input.name) && Blank(input.customer) ==> r == Err(CustomerRequired)
      ensures r.Err? ==> jobs == old(jobs) && nextId == old(nextId)
      ensures !Blank(input.name) && !Blank(input.customer) ==>
        && r == Ok(NewJob(old(nextId), input))
        && IdAbsent(old(jobs), r.value.id)
        && jobs == old(jobs) + [r.value]
        && nextId == old(nextId) + 1
    {
      if Blank(input.name) {
        return Err(NameRequired);
      }
      if Blank(input.customer) {
        return Err(CustomerRequired);
      }
      var job := NewJob(nextId, input);
      jobs := jobs + [job];
      nextId := nextId + 1;
      r := Ok(job);
    }

    /** The delete handler: 404 when no row has the id; otherwise that row is
        removed and returned, and no other row changes. */
    method DeleteJob(id: int) returns (r: Result<Job, ApiError>)
      requires Valid()
      modifies this
      ensures Valid()
      ensures nextId == old(nextId)
      ensures IdAbsent(old(jobs), id) ==> r == Err(JobNotFound) && jobs == old(jobs)
      ensures !IdAbsent(old(jobs), id) ==>
        && r.Ok? && r.value in old(jobs) && r.value.id == id
        && |jobs| == |old(jobs)| - 1
        && IdAbsent(jobs, id)
        && (forall j :: j in jobs <==> (j in old(jobs) && j.id != id))
    {
      var found := FindById(jobs, id);
      if found.None? {
        return Err(JobNotFound);
      }
      var k := found.value;
      r := Ok(jobs[k]);
      RemoveAtKeepsOthers(jobs, k);
      jobs := RemoveAt(jobs, k);
    }

    /** `query_jobs` on the current rows; it has no `modifies` clause, so the
        table is left as it was. */
    method ListJobs(q: JobQuery.QueryParams) returns (r: Result<seq<Job>, ApiError>)
      requires q.page >= 1 && q.limit >= 0
      ensures r == JobQuery.QueryJobs(jobs, q)
    {
      r := JobQuery.QueryJobs(jobs, q);
    }
  }

  /* ---------- Handlers in sequence ---------- */

  /** After a successful create, an unfiltered first page large enough for
      the whole table lists the new row exactly once. */
  lemma CreatedJobIsListed(before: seq<Job>, j: Job, q: JobQuery.QueryParams)
    requires IdAbsent(before, j.id)
    requires JobQuery.Unfiltered(q) && JobQuery.Accepted(q)
    requires q.page == 1 && q.limit > |before|
    ensures JobQuery.QueryJobs(before + [j], q).Ok?
    ensures multiset(JobQuery.QueryJobs(before + [j], q).value)[j] == 1
  {
    var after := before + [j];
    JobQuery.FirstPageIsComplete(after, q);
    JobQuery.UnfilteredMatchesAll(q, j);
    assert j !in before;
    assert multiset(after) == multiset(before) + multiset{j};
  }

  /** After a delete, no query lists a row with the deleted id. */
  lemma DeletedJobIsNotListed(after: seq<Job>, id: int, q: JobQuery.QueryParams)
    requires IdAbsent(after, id)
    requires q.page >= 1 && q.limit >= 0
    ensures JobQuery.QueryJobs(after, q).Ok? ==>
      forall j :: j in JobQuery.QueryJobs(after, q).value ==> j.id != id
  {
  }

  /** Create "Roof A" for "Acme", list Acme's jobs by name, delete the job
      by its id, list again: the outcome each contract promises. */
  method AcmeScenario()
  {
    var t := new JobTable();
    var input := JobInput(Some("Roof A"), Some("Acme"), Some(19723), Some(19754), Some(InProgress));
    var created := t.CreateJob(input);
    assert created == Ok(NewJob(1, input));
    var job := created.value;

    var byCustomer := JobQuery.QueryParams(None, Some("Acme"), None, None, None, 1, 100, "name", "asc");
    var listed := t.ListJobs(byCustomer);
    JobQuery.FirstPageIsComplete(t.jobs, byCustomer);
    assert multiset(t.jobs)[job] == 1;
    assert listed.Ok? && job in multiset(listed.value);

    var deleted := t.DeleteJob(1);
    assert !IdAbsent([job], 1);
    assert deleted.Ok? && deleted.value == job;
    assert t.jobs == [];

    var again := t.ListJobs(JobQuery.QueryParams(None, Some("Acme"), None, None, None, 1, 100, "startDate", "asc"));
    assert again == Ok([]);
  }
}
