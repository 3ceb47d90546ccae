/** The `ORDER BY` of the job listing: the five whitelisted sort keys, the
    two directions, a total preorder on jobs for each key and direction, and
    a reference sort that produces one ordering the store may return. */
module Ordering {
  import opened Wrappers
  import opened JobModels

  /* ---------- Text order ---------- */

  /** Lexicographic order on strings, by character code. */
  predicate TextLe(a: string, b: string)
    decreases |a|
  {
    if |a| == 0 then true
    else if |b| == 0 then false
    else if a[0] < b[0] then true
    else if a[0] == b[0] then TextLe(a[1..], b[1..])
    else false
  }

  lemma {:induction false} TextLeTotal(a: string, b: string)
    ensures TextLe(a, b) || TextLe(b, a)
    decreases |a|
  {
    if |a| > 0 && |b| > 0 && a[0] == b[0] {
      TextLeTotal(a[1..], b[1..]);
    }
  }

  lemma {:induction false} TextLeTransitive(a: string, b: string, c: string)
    requires TextLe(a, b) && TextLe(b, c)
    ensures TextLe(a, c)
    decreases |a|
  {
    if |a| > 0 && a[0] == b[0] && b[0] == c[0] {
      TextLeTransitive(a[1..], b[1..], c[1..]);
    }
  }

  /* ---------- Column orders; an absent value (NULL) comes first ---------- */

  predicate OptTextLe(a: Option<string>, b: Option<string>) {
    a.None? || (b.Some? && TextLe(a.value, b.value))
  }

  predicate OptDayLe(a: Option<Day>, b: Option<Day>) {
    a.None? || (b.Some? && a.value <= b.value)
  }

  predicate OptStatusLe(a: Option<Status>, b: Option<Status>) {
    a.None? || (b.Some? && StatusRank(a.value) <= StatusRank(b.value))
  }

  /* ---------- Sort keys and directions ---------- */

  datatype SortField = ByName | ByCustomer | ByStartDate | ByEndDate | ByStatus

  datatype SortOrder = Asc | Desc

  /** The column name a sort key is requested by. */
  function FieldName(f: SortField): string {
    match f
    case ByName => "name"
    case ByCustomer => "customer"
    case ByStartDate => "startDate"
    case ByEndDate => "endDate"
    case ByStatus => "status"
  }

  /** The whitelist of `sort_by` values, in the order the handler lists them. */
  const SortFieldNames: seq<string> := ["name", "customer", "startDate", "endDate", "status"]

  /** `sort_by` to a sort key: defined exactly on the whitelist, and the
      inverse of `FieldName` there. */
  function ParseSortField(s: string): (r: Option<SortField>)
    ensures r.Some? <==> s in SortFieldNames
    ensures r.Some? ==> FieldName(r.value) == s
  {
    if s == "name" then Some(ByName)
    else if s == "customer" then Some(ByCustomer)
    else if s == "startDate" then Some(ByStartDate)
    else if s == "endDate" then Some(ByEndDate)
    else if s == "status" then Some(ByStatus)
    else None
  }

  lemma ParseFieldName(f: SortField)
    ensures ParseSortField(FieldName(f)) == Some(f)
  {
  }

  /** `sort_order` to a direction: only "asc" and "desc" are accepted. */
  function ParseSortOrder(s: string): (r: Option<SortOrder>)
    ensures r.Some? <==> (s == "asc" || s == "desc")
    ensures r == Some(Asc) <==> s == "asc"
  {
    if s == "asc" then Some(Asc)
    else if s == "desc" then Some(Desc)
    else None
  }

  /* ---------- Order on jobs ---------- */

  /** `a` does not come after `b` in ascending order of key `f`. */
  predicate KeyLe(f: SortField, a: Job, b: Job) {
    match f
    case ByName => OptTextLe(a.name, b.name)
    case ByCustomer => OptTextLe(a.customer, b.customer)
    case ByStartDate => OptDayLe(a.startDate, b.startDate)
    case ByEndDate => OptDayLe(a.endDate, b.endDate)
    case ByStatus => OptStatusLe(a.status, b.status)
  }

  lemma KeyLeTotal(f: SortField, a: Job, b: Job)
    ensures KeyLe(f, a, b) || KeyLe(f, b, a)
  {
    match f
    case ByName =>
      if a.name.Some? && b.name.Some? { TextLeTotal(a.name.value, b.name.value); }
    case ByCustomer =>
      if a.customer.Some? && b.customer.Some? { TextLeTotal(a.customer.value, b.customer.value); }
    case _ =>
  }

  lemma KeyLeTransitive(f: SortField, a: Job, b: Job, c: Job)
    requires KeyLe(f, a, b) && KeyLe(f, b, c)
    ensures KeyLe(f, a, c)
  {
    match f
    case ByName =>
      if a.name.Some? { TextLeTransitive(a.name.value, b.name.value, c.name.value); }
    case ByCustomer =>
      if a.customer.Some? { TextLeTransitive(a.customer.value, b.customer.value, c.customer.value); }
    case _ =>
  }

  /** `a` may be listed before `b` when ordering by `f` in direction `o`. */
  predicate Before(f: SortField, o: SortOrder, a: Job, b: Job) {
    match o
    case Asc => KeyLe(f, a, b)
    case Desc => KeyLe(f, b, a)
  }

  lemma BeforeTotal(f: SortField, o: SortOrder, a: Job, b: Job)
    ensures Before(f, o, a, b) || Before(f, o, b, a)
  {
    KeyLeTotal(f, a, b);
  }

  lemma BeforeTransitive(f: SortField, o: SortOrder, a: Job, b: Job, c: Job)
    requires Before(f, o, a, b) && Before(f, o, b, c)
    ensures Before(f, o, a, c)
  {
    match o
    case Asc => KeyLeTransitive(f, a, b, c);
    case Desc => KeyLeTransitive(f, c, b, a);
  }

  /** Non-decreasing (`Asc`) or non-increasing (`Desc`) by key `f`. */
  ghost predicate Sorted(f: SortField, o: SortOrder, s: seq<Job>) {
    forall i, j :: 0 <= i < j < |s| ==> Before(f, o, s[i], s[j])
  }

  /* ---------- Reference sort ---------- */

  lemma PrependSorted(f: SortField, o: SortOrder, h: Job, t: seq<Job>)
    requires Sorted(f, o, t)
    requires forall e :: e in t ==> Before(f, o, h, e)
    ensures Sorted(f, o, [h] + t)
  {
    var s := [h] + t;
    forall i, j | 0 <= i < j < |s| ensures Before(f, o, s[i], s[j]) {
      if i == 0 {
        assert s[j] == t[j - 1];
        assert s[j] in t;
      } else {
        assert s[i] == t[i - 1] && s[j] == t[j - 1];
      }
    }
  }

  /** Inserts `x` into sorted `s` before the first element it may precede. */
  function Insert(f: SortField, o: SortOrder, x: Job, s: seq<Job>): (r: seq<Job>)
    requires Sorted(f, o, s)
    ensures Sorted(f, o, r)
    ensures multiset(r) == multiset(s) + multiset{x} && |r| == |s| + 1
    decreases |s|
  {
    if s == [] then [x]
    else if Before(f, o, x, s[0]) then
      InsertAtFront(f, o, x, s);
      [x] + s
    else
      var t := Insert(f, o, x, s[1..]);
      InsertBehindHead(f, o, x, s, t);
      assert s == [s[0]] + s[1..];
      [s[0]] + t
  }

  lemma InsertAtFront(f: SortField, o: SortOrder, x: Job, s: seq<Job>)
    requires Sorted(f, o, s) && s != [] && Before(f, o, x, s[0])
    ensures Sorted(f, o, [x] + s)
  {
    forall e | e in s ensures Before(f, o, x, e) {
      var k :| 0 <= k < |s| && s[k] == e;
      if k > 0 { BeforeTransitive(f, o, x, s[0], e); }
    }
    PrependSorted(f, o, x, s);
  }

  lemma InsertBehindHead(f: SortField, o: SortOrder, x: Job, s: seq<Job>, t: seq<Job>)
    requires Sorted(f, o, s) && s != [] && !Before(f, o, x, s[0])
    requires Sorted(f, o, t) && multiset(t) == multiset(s[1..]) + multiset{x}
    ensures Sorted(f, o, [s[0]] + t)
  {
    forall e | e in t ensures Before(f, o, s[0], e) {
      assert e in multiset(t);
      if e == x {
        BeforeTotal(f, o, x, s[0]);
      } else {
        assert e in multiset(s[1..]);
        var k :| 0 <= k < |s[1..]| && s[1..][k] == e;
        assert s[k + 1] == e;
      }
    }
    PrependSorted(f, o, s[0], t);
  }

  /** Orders `s` by key `f` in direction `o`: the result is sorted and a
      permutation of `s`. Jobs with equal keys keep their relative order,
      which is one of the orders the store is free to return. */
  function SortJobs(f: SortField, o: SortOrder, s: seq<Job>): (r: seq<Job>)
    ensures Sorted(f, o, r)
    ensures multiset(r) == multiset(s) && |r| == |s|
    decreases |s|
  {
    if s == [] then []
    else
      assert s == [s[0]] + s[1..];
      Insert(f, o, s[0], SortJobs(f, o, s[1..]))
  }
}
