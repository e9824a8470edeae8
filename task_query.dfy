/**
 * The listing query of services/task_service.py (`get_paginated_tasks`):
 * filter, optional sort, offset/limit window, total count and page count,
 * over the store's rows in their natural order.
 */
module TaskQuery {
  import opened Wrappers
  import opened TaskModel
  import opened TaskSchema
  import opened SortKeys

  function Min(a: int, b: int): int { if a <= b then a else b }
  function Max(a: int, b: int): int { if a >= b then a else b }

  /** The listing parameters, as the route passes them on. */
  datatype Query = Query(
    status: Option<Status>,
    priority: Option<Priority>,
    assignedTo: Option<string>,
    skip: int,
    limit: int,
    sortBy: Option<string>,
    sortOrder: Option<string>)

  // ---------------------------------------------------------------- filtering

  /**
   * The WHERE clause: every filter that is given must hold. An assignee
   * filter that is None or "" is falsy and so imposes nothing; a row with a
   * NULL assignee never equals a given one.
   */
  predicate Matches(t: Task, q: Query)
    ensures q.status.None? && q.priority.None? && (q.assignedTo.None? || q.assignedTo.value == []) ==>
      Matches(t, q)
    ensures Matches(t, q) && q.status.Some? ==> t.status == q.status.value
    ensures Matches(t, q) && q.priority.Some? ==> t.priority == q.priority.value
    ensures Matches(t, q) && q.assignedTo.Some? && q.assignedTo.value != [] ==>
      t.assignedTo == q.assignedTo
  {
    && (q.status.None? || t.status == q.status.value)
    && (q.priority.None? || t.priority == q.priority.value)
    && (q.assignedTo.None? || q.assignedTo.value == [] || t.assignedTo == q.assignedTo)
  }

  /** The rows the base query selects, in their original order. */
  function Filter(rows: seq<Task>, q: Query): (r: seq<Task>)
    ensures |r| <= |rows|
    ensures forall i :: 0 <= i < |r| ==> r[i] in rows && Matches(r[i], q)
    ensures forall i :: 0 <= i < |rows| && Matches(rows[i], q) ==> rows[i] in r
  {
    if rows == [] then []
    else
      assert rows == [rows[0]] + rows[1..];
      (if Matches(rows[0], q) then [rows[0]] else []) + Filter(rows[1..], q)
  }

  /** `select count(Task.id)` under the same WHERE clause. */
  function Count(rows: seq<Task>, q: Query): (n: nat)
    ensures n <= |rows|
    ensures n == 0 <==> forall i :: 0 <= i < |rows| ==> !Matches(rows[i], q)
  {
    if rows == [] then 0
    else
      assert forall i :: 1 <= i < |rows| ==> rows[i] == rows[1..][i - 1];
      (if Matches(rows[0], q) then 1 else 0) + Count(rows[1..], q)
  }

  /** The count query and the base query agree: every selected row is counted once. */
  lemma {:induction false} CountIsFilterLength(rows: seq<Task>, q: Query)
    ensures Count(rows, q) == |Filter(rows, q)|
  {
    if rows != [] {
      CountIsFilterLength(rows[1..], q);
    }
  }

  /** A query with no filter (None, or an empty assignee) selects every row. */
  lemma {:induction false} NoFilterSelectsAll(rows: seq<Task>, q: Query)
    requires q.status.None? && q.priority.None? && (q.assignedTo.None? || q.assignedTo.value == [])
    ensures Filter(rows, q) == rows
  {
    if rows != [] {
      NoFilterSelectsAll(rows[1..], q);
      assert rows == [rows[0]] + rows[1..];
    }
  }

  /** The ids of `ts` strictly increase: the store's natural (rowid) order. */
  predicate IncreasingIds(ts: seq<Task>) {
    && (forall i :: 0 <= i < |ts| ==> ts[i].id.Some?)
    && (forall i, j :: 0 <= i < j < |ts| ==> ts[i].id.value < ts[j].id.value)
  }

  /** Queries with the same filters select the same rows, whatever their paging and sorting. */
  lemma {:induction false} FilterIgnoresPaging(rows: seq<Task>, q: Query, q': Query)
    requires q.status == q'.status && q.priority == q'.priority && q.assignedTo == q'.assignedTo
    ensures Filter(rows, q) == Filter(rows, q')
  {
    if rows != [] {
      FilterIgnoresPaging(rows[1..], q, q');
    }
  }

  /** Every task of `ts` has an id above `k`. */
  predicate IdsAbove(ts: seq<Task>, k: int) {
    forall i :: 0 <= i < |ts| ==> ts[i].id.Some? && ts[i].id.value > k
  }

  /** A task below an increasing run extends it. */
  lemma ConsIncreasing(t: Task, rest: seq<Task>)
    requires t.id.Some? && IdsAbove(rest, t.id.value) && IncreasingIds(rest)
    ensures IncreasingIds([t] + rest)
  {
    var s := [t] + rest;
    forall i | 0 < i < |s| ensures s[i] == rest[i - 1] {}

  }

  /** Filtering keeps a lower bound on the ids. */
  lemma {:induction false} FilterKeepsBound(rows: seq<Task>, q: Query, k: int)
    requires IdsAbove(rows, k)
    ensures IdsAbove(Filter(rows, q), k)
  {
    if rows != [] {
      FilterKeepsBound(rows[1..], q, k);
    }
  }

  /** Filtering keeps the natural order. */
  lemma {:induction false} FilterKeepsOrder(rows: seq<Task>, q: Query)
    requires IncreasingIds(rows)
    ensures IncreasingIds(Filter(rows, q))
  {
    if rows != [] {
      var tail := rows[1..];
      assert IncreasingIds(tail) && IdsAbove(tail, rows[0].id.value) by {
        forall i | 0 <= i < |tail| ensures tail[i] == rows[i + 1] {}
      }
      FilterKeepsOrder(tail, q);
      FilterKeepsBound(tail, q, rows[0].id.value);
      if Matches(rows[0], q) {
        ConsIncreasing(rows[0], Filter(tail, q));
      }
    }
  }

  // ---------------------------------------------------------------- sorting

  /** The Task attributes `sort_by` may name. */
  datatype Column =
    | IdColumn | TitleColumn | DescriptionColumn | StatusColumn | PriorityColumn
    | CreatedAtColumn | UpdatedAtColumn | DueDateColumn | AssignedToColumn

  /** The attribute name of a column. */
  function ColumnName(c: Column): string {
    match c
    case IdColumn => "id"
    case TitleColumn => "title"
    case DescriptionColumn => "description"
    case StatusColumn => "status"
    case PriorityColumn => "priority"
    case CreatedAtColumn => "created_at"
    case UpdatedAtColumn => "updated_at"
    case DueDateColumn => "due_date"
    case AssignedToColumn => "assigned_to"
  }

  /** `getattr(Task, name, None)` restricted to columns: the column so named, if any. */
  function ColumnNamed(name: string): (c: Option<Column>)
    ensures c.Some? ==> ColumnName(c.value) == name
    ensures c.None? ==> forall col: Column :: ColumnName(col) != name
  {
    if name == "id" then Some(IdColumn)
    else if name == "title" then Some(TitleColumn)
    else if name == "description" then Some(DescriptionColumn)
    else if name == "status" then Some(StatusColumn)
    else if name == "priority" then Some(PriorityColumn)
    else if name == "created_at" then Some(CreatedAtColumn)
    else if name == "updated_at" then Some(UpdatedAtColumn)
    else if name == "due_date" then Some(DueDateColumn)
    else if name == "assigned_to" then Some(AssignedToColumn)
    else None
  }

  /**
   * How the store ranks enum values when sorting; left abstract, so the
   * model fixes no order among statuses or priorities.
   */
  datatype EnumRanks = EnumRanks(statusRank: Status -> int, priorityRank: Priority -> int)

  function OptionalText(s: Option<string>): Key {
    if s.Some? then Str(s.value) else Null
  }

  function OptionalNum(n: Option<int>): Key {
    if n.Some? then Num(n.value) else Null
  }

  /**
   * The value of column `c` of `t`, as ORDER BY compares it. The due-date
   * column keeps no UTC offset, so due dates compare by wall-clock value.
   */
  function KeyOf(t: Task, c: Column, ranks: EnumRanks): (k: Key)
    ensures k.Null? <==>
      || (c == IdColumn && t.id.None?)
      || (c == DescriptionColumn && t.description.None?)
      || (c == UpdatedAtColumn && t.updatedAt.None?)
      || (c == DueDateColumn && t.dueDate.None?)
      || (c == AssignedToColumn && t.assignedTo.None?)
    ensures c == TitleColumn ==> k == Str(t.title)
    ensures c == DueDateColumn && t.dueDate.Some? ==> k == Num(t.dueDate.value.local)
  {
    match c
    case IdColumn => OptionalNum(t.id)
    case TitleColumn => Str(t.title)
    case DescriptionColumn => OptionalText(t.description)
    case StatusColumn => Num(ranks.statusRank(t.status))
    case PriorityColumn => Num(ranks.priorityRank(t.priority))
    case CreatedAtColumn => Num(t.createdAt)
    case UpdatedAtColumn => OptionalNum(t.updatedAt)
    case DueDateColumn => if t.dueDate.Some? then Num(t.dueDate.value.local) else Null
    case AssignedToColumn => OptionalText(t.assignedTo)
  }

  /** An ORDER BY clause: a column and a direction. */
  datatype Ordering = Ordering(column: Column, ranks: EnumRanks, descending: bool)

  /** `a` may come before `b` under `o`. */
  predicate Precedes(a: Task, b: Task, o: Ordering) {
    if o.descending then KeyLe(KeyOf(b, o.column, o.ranks), KeyOf(a, o.column, o.ranks))
    else KeyLe(KeyOf(a, o.column, o.ranks), KeyOf(b, o.column, o.ranks))
  }

  lemma PrecedesTotal(a: Task, b: Task, o: Ordering)
    ensures Precedes(a, b, o) || Precedes(b, a, o)
  {
    KeyLeTotal(KeyOf(a, o.column, o.ranks), KeyOf(b, o.column, o.ranks));
  }

  lemma PrecedesTransitive(a: Task, b: Task, c: Task, o: Ordering)
    requires Precedes(a, b, o) && Precedes(b, c, o)
    ensures Precedes(a, c, o)
  {
    var ka, kb, kc := KeyOf(a, o.column, o.ranks), KeyOf(b, o.column, o.ranks), KeyOf(c, o.column, o.ranks);
    if o.descending {
      KeyLeTransitive(kc, kb, ka);
    } else {
      KeyLeTransitive(ka, kb, kc);
    }
  }

  /** Every pair of `s` is in order: non-decreasing keys, or non-increasing when descending. */
  predicate SortedBy(s: seq<Task>, o: Ordering) {
    forall i, j :: 0 <= i < j < |s| ==> Precedes(s[i], s[j], o)
  }

  /** Every neighbouring pair of `s` is in order. */
  predicate Chained(s: seq<Task>, o: Ordering) {
    forall i :: 0 <= i < |s| - 1 ==> Precedes(s[i], s[i + 1], o)
  }

  /** Neighbouring pairs in order put every pair in order. */
  lemma {:induction false} ChainedIsSorted(s: seq<Task>, o: Ordering)
    requires Chained(s, o)
    ensures SortedBy(s, o)
  {
    if |s| > 1 {
      ChainedIsSorted(s[1..], o);
      forall j | 1 < j < |s|
        ensures Precedes(s[0], s[j], o)
      {
        assert Precedes(s[1..][0], s[1..][j - 1], o);
        PrecedesTransitive(s[0], s[1], s[j], o);
      }
    }
  }

  /** `x` placed into the ordered `s` before the first element it may precede. */
  function Insert(x: Task, s: seq<Task>, o: Ordering): (r: seq<Task>)
    requires Chained(s, o)
    ensures |r| == |s| + 1
    ensures Chained(r, o)
    ensures multiset(r) == multiset(s) + multiset{x}
    ensures r[0] == x || (|s| > 0 && r[0] == s[0])
  {
    if s == [] || Precedes(x, s[0], o) then [x] + s
    else
      PrecedesTotal(x, s[0], o);
      assert s == [s[0]] + s[1..];
      assert forall i :: 0 <= i < |s[1..]| ==> s[1..][i] == s[i + 1];
      [s[0]] + Insert(x, s[1..], o)
  }

  /** ORDER BY: a reordering of `s` in which every pair is in order. */
  function Sort(s: seq<Task>, o: Ordering): (r: seq<Task>)
    ensures |r| == |s|
    ensures Chained(r, o)
    ensures multiset(r) == multiset(s)
  {
    if s == [] then []
    else
      assert s == [s[0]] + s[1..];
      Insert(s[0], Sort(s[1..], o), o)
  }

  /**
   * The ORDER BY the query asks for: none when `sort_by` is absent, empty or
   * not a column; descending exactly when `sort_order` is "desc".
   */
  function OrderingOf(q: Query, ranks: EnumRanks): (o: Option<Ordering>)
    ensures o.Some? <==> q.sortBy.Some? && exists c: Column :: ColumnName(c) == q.sortBy.value
    ensures o.Some? ==> ColumnName(o.value.column) == q.sortBy.value
    ensures o.Some? ==> (o.value.descending <==> q.sortOrder == Some("desc"))
  {
    if q.sortBy.Some? && q.sortBy.value != [] then
      match ColumnNamed(q.sortBy.value)
      case Some(c) => Some(Ordering(c, ranks, q.sortOrder == Some("desc")))
      case None => None
    else
      assert q.sortBy.Some? ==> forall c: Column :: ColumnName(c) != q.sortBy.value;
      None
  }

  /** The selected rows, sorted if the query names a column, else in natural order. */
  function Arrange(rows: seq<Task>, q: Query, ranks: EnumRanks): (r: seq<Task>)
    ensures |r| == |rows|
    ensures multiset(r) == multiset(rows)
    ensures OrderingOf(q, ranks).Some? ==> SortedBy(r, OrderingOf(q, ranks).value)
    ensures OrderingOf(q, ranks).None? ==> r == rows
  {
    match OrderingOf(q, ranks)
    case Some(o) =>
      var sorted := Sort(rows, o);
      ChainedIsSorted(sorted, o);
      sorted
    case None => rows
  }

  // ---------------------------------------------------------------- paging

  /** OFFSET `skip` LIMIT `limit`. */
  function Window<T>(s: seq<T>, skip: nat, limit: nat): (r: seq<T>)
    ensures |r| == Min(limit, Max(0, |s| - skip))
    ensures forall i :: 0 <= i < |r| ==> r[i] == s[skip + i]
  {
    s[Min(skip, |s|)..Min(skip + limit, |s|)]
  }

  /** `(total + limit - 1) // limit`: the ceiling of total / limit, zero exactly when there is nothing. */
  function Pages(total: nat, limit: int): (p: nat)
    requires limit >= 1
    ensures p == 0 <==> total == 0
    ensures total > 0 ==> (p - 1) * limit < total <= p * limit
  {
    var p := (total + limit - 1) / limit;
    var m := (total + limit - 1) % limit;
    assert total + limit - 1 == p * limit + m && 0 <= m < limit;
    assert total == 0 ==> p == 0 by {
      if total == 0 {
        assert p * limit <= limit - 1;
      }
    }
    assert (p - 1) * limit == p * limit - limit;
    p
  }

  /** The page of tasks a query selects: the window of the arranged selection. */
  function PageOf(rows: seq<Task>, q: Query, ranks: EnumRanks): (page: seq<Task>)
    requires q.skip >= 0 && q.limit >= 1
  {
    Window(Arrange(Filter(rows, q), q, ranks), q.skip, q.limit)
  }

  /** The page is as long as the window over the selection allows. */
  lemma PageLength(rows: seq<Task>, q: Query, ranks: EnumRanks)
    requires q.skip >= 0 && q.limit >= 1
    ensures |PageOf(rows, q, ranks)| == Min(q.limit, Max(0, |Filter(rows, q)| - q.skip))
  {
    var selected := Filter(rows, q);
    var arranged := Arrange(selected, q, ranks);
    assert |arranged| == |selected|;
    assert PageOf(rows, q, ranks) == Window(arranged, q.skip, q.limit);
  }

  /** Arranging only reorders: every arranged row was one of the input. */
  lemma ArrangedFrom(s: seq<Task>, q: Query, ranks: EnumRanks, k: int)
    requires 0 <= k < |s|
    ensures |Arrange(s, q, ranks)| == |s|
    ensures Arrange(s, q, ranks)[k] in s
  {
    var a := Arrange(s, q, ranks);
    assert a[k] in multiset(a);
  }

  /** Every task on the page is a stored row that matches the filters. */
  lemma PageMembers(rows: seq<Task>, q: Query, ranks: EnumRanks)
    requires q.skip >= 0 && q.limit >= 1
    ensures forall i :: 0 <= i < |PageOf(rows, q, ranks)| ==>
      PageOf(rows, q, ranks)[i] in rows && Matches(PageOf(rows, q, ranks)[i], q)
  {
    var selected := Filter(rows, q);
    var arranged := Arrange(selected, q, ranks);
    var page := PageOf(rows, q, ranks);
    assert page == Window(arranged, q.skip, q.limit);
    forall i | 0 <= i < |page| ensures page[i] in rows && Matches(page[i], q) {
      assert page[i] == arranged[q.skip + i];
      ArrangedFrom(selected, q, ranks, q.skip + i);
      SelectedFrom(rows, q, page[i]);
    }
  }

  /** Whatever the base query selects is a row that matches. */
  lemma SelectedFrom(rows: seq<Task>, q: Query, t: Task)
    requires t in Filter(rows, q)
    ensures t in rows && Matches(t, q)
  {
    var selected := Filter(rows, q);
    var j :| 0 <= j < |selected| && selected[j] == t;
  }

  /** With a sort column, the page is in that column's order. */
  lemma PageSorted(rows: seq<Task>, q: Query, ranks: EnumRanks)
    requires q.skip >= 0 && q.limit >= 1 && OrderingOf(q, ranks).Some?
    ensures SortedBy(PageOf(rows, q, ranks), OrderingOf(q, ranks).value)
  {
    WindowSorted(Arrange(Filter(rows, q), q, ranks), q.skip, q.limit, OrderingOf(q, ranks).value);
  }

  /** A window of a sorted sequence is sorted. */
  lemma WindowSorted(s: seq<Task>, skip: nat, limit: nat, o: Ordering)
    requires SortedBy(s, o)
    ensures SortedBy(Window(s, skip, limit), o)
  {
    var w := Window(s, skip, limit);
    forall i, j | 0 <= i < j < |w| ensures Precedes(w[i], w[j], o) {
      assert w[i] == s[skip + i] && w[j] == s[skip + j];
    }
  }


  /** Each response of `rs` precedes the later ones under `o`. */
  predicate ResponsesSortedBy(rs: seq<TaskResponse>, o: Ordering) {
    forall i, j :: 0 <= i < j < |rs| ==> Precedes(AsTask(rs[i]), AsTask(rs[j]), o)
  }

  /** The responses of `rs` come in strictly ascending id. */
  predicate AscendingIds(rs: seq<TaskResponse>) {
    forall i, j :: 0 <= i < j < |rs| ==> rs[i].id < rs[j].id
  }

  /**
   * `get_paginated_tasks` over `rows` in the store's natural order: the
   * window of the selected, arranged rows, with the selection's total.
   */
  function ListTasks(rows: seq<Task>, q: Query, ranks: EnumRanks): (p: PaginatedResponse<TaskResponse>)
    requires Identified(rows) && q.skip >= 0 && q.limit >= 1
    ensures p.total == |Filter(rows, q)|
    ensures p.limit == q.limit && p.offset == q.skip
    ensures p.pages == Pages(p.total, q.limit)
    ensures |p.data| == Min(q.limit, Max(0, p.total - q.skip))
    ensures forall i :: 0 <= i < |p.data| ==> AsTask(p.data[i]) == PageOf(rows, q, ranks)[i]
    ensures forall i :: 0 <= i < |p.data| ==> AsTask(p.data[i]) in rows && Matches(AsTask(p.data[i]), q)
    ensures OrderingOf(q, ranks).Some? ==> ResponsesSortedBy(p.data, OrderingOf(q, ranks).value)
    ensures OrderingOf(q, ranks).None? ==> p.data == Responses(Window(Filter(rows, q), q.skip, q.limit))
  {
    var page := PageOf(rows, q, ranks);
    PageLength(rows, q, ranks);
    PageMembers(rows, q, ranks);
    assert OrderingOf(q, ranks).Some? ==> SortedBy(page, OrderingOf(q, ranks).value) by {
      if OrderingOf(q, ranks).Some? {
        PageSorted(rows, q, ranks);
      }
    }
    var total := Count(rows, q);
    CountIsFilterLength(rows, q);
    PaginatedResponse(Responses(page), total, q.limit, q.skip, Pages(total, q.limit))
  }

  /** `total` counts the filtered rows only: skip, limit and the sort leave it unchanged. */
  lemma TotalIgnoresPaging(rows: seq<Task>, q: Query, q': Query, ranks: EnumRanks)
    requires Identified(rows) && q.skip >= 0 && q.limit >= 1 && q'.skip >= 0 && q'.limit >= 1
    requires q.status == q'.status && q.priority == q'.priority && q.assignedTo == q'.assignedTo
    ensures ListTasks(rows, q, ranks).total == ListTasks(rows, q', ranks).total
  {
    FilterIgnoresPaging(rows, q, q');
  }

  /** Without a sort column, a page lists its tasks in ascending id, the natural row order. */
  lemma NaturalOrderPage(rows: seq<Task>, q: Query, ranks: EnumRanks)
    requires Identified(rows) && IncreasingIds(rows) && q.skip >= 0 && q.limit >= 1
    requires OrderingOf(q, ranks).None?
    ensures AscendingIds(ListTasks(rows, q, ranks).data)
  {
    FilterKeepsOrder(rows, q);
    var w := Window(Filter(rows, q), q.skip, q.limit);
    assert IncreasingIds(w);
  }
}
