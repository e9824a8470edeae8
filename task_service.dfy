/**
 * The Task service of services/task_service.py over an abstract store: a
 * class holding the rows keyed by id, the ids in row order, and the next id
 * to assign. "now" is passed in as an instant.
 */
module TaskService {
  import opened Wrappers
  import opened Errors
  import opened Text
  import opened TaskModel
  import opened TaskSchema
  import opened TaskQuery

  const NotFoundMessage := "Task not found"
  const TitleEmptyMessage := "Title cannot be empty or only whitespace."
  const DueDateMessage := "Due date must be in the future."

  /** The service's own due-date check: a set due date must lie strictly after `now`. */
  predicate DueDateRejected(d: Option<AwareDateTime>, now: int) {
    d.Some? && d.value.Instant() <= now
  }

  /** What every stored task satisfies: a stripped, non-empty title and the column bounds. */
  predicate Normalised(t: Task) {
    t.title != [] && Stripped(t.title) && WithinBounds(t)
  }

  predicate Increasing(ks: seq<int>) {
    forall i, j :: 0 <= i < j < |ks| ==> ks[i] < ks[j]
  }

  /** The tasks stored under `ks`, in that order. */
  function Lookup(m: map<int, Task>, ks: seq<int>): (r: seq<Task>)
    requires forall i :: 0 <= i < |ks| ==> ks[i] in m
    ensures |r| == |ks|
    ensures forall i :: 0 <= i < |ks| ==> r[i] == m[ks[i]]
  {
    if ks == [] then [] else [m[ks[0]]] + Lookup(m, ks[1..])
  }

  /** `ks` with `x` taken out, the rest in order. */
  function Without(ks: seq<int>, x: int): (r: seq<int>)
    ensures |r| <= |ks|
    ensures forall i :: 0 <= i < |r| ==> r[i] in ks && r[i] != x
    ensures forall i :: 0 <= i < |ks| && ks[i] != x ==> ks[i] in r
  {
    if ks == [] then [] else (if ks[0] == x then [] else [ks[0]]) + Without(ks[1..], x)
  }

  /** Every key of `ks` is above `k`. */
  predicate KeysAbove(ks: seq<int>, k: int) {
    forall i :: 0 <= i < |ks| ==> ks[i] > k
  }

  /** Taking a key out keeps a lower bound on the rest. */
  lemma {:induction false} WithoutKeepsBound(ks: seq<int>, x: int, k: int)
    requires KeysAbove(ks, k)
    ensures KeysAbove(Without(ks, x), k)
  {
    if ks != [] {
      WithoutKeepsBound(ks[1..], x, k);
    }
  }

  /** Taking a key out keeps the row order increasing. */
  lemma {:induction false} WithoutKeepsOrder(ks: seq<int>, x: int)
    requires Increasing(ks)
    ensures Increasing(Without(ks, x))
  {
    if ks != [] {
      var tail := ks[1..];
      assert Increasing(tail) && KeysAbove(tail, ks[0]) by {
        forall i | 0 <= i < |tail| ensures tail[i] == ks[i + 1] {}
      }
      WithoutKeepsOrder(tail, x);
      WithoutKeepsBound(tail, x, ks[0]);
      var rest := Without(tail, x);
      if ks[0] != x {
        var r := [ks[0]] + rest;
        forall i | 0 < i < |r| ensures r[i] == rest[i - 1] {}
      }
    }
  }

  /** The keys among `ks` whose task matches `q`. */
  function MatchingKeys(m: map<int, Task>, ks: seq<int>, q: Query): (keys: set<int>) {
    set k | k in ks && k in m && Matches(m[k], q)
  }

  /** Over distinct keys, the rows a query selects are as many as the keys that match. */
  lemma {:induction false} SelectionCountsKeys(m: map<int, Task>, ks: seq<int>, q: Query)
    requires Increasing(ks) && forall i :: 0 <= i < |ks| ==> ks[i] in m
    ensures |Filter(Lookup(m, ks), q)| == |MatchingKeys(m, ks, q)|
  {
    if ks != [] {
      var tail := ks[1..];
      assert Increasing(tail) by {
        forall i | 0 <= i < |tail| ensures tail[i] == ks[i + 1] {}
      }
      SelectionCountsKeys(m, tail, q);
      assert Lookup(m, ks)[1..] == Lookup(m, tail);
      assert ks[0] !in tail;
      if Matches(m[ks[0]], q) {
        assert MatchingKeys(m, ks, q) == {ks[0]} + MatchingKeys(m, tail, q);
      } else {
        assert MatchingKeys(m, ks, q) == MatchingKeys(m, tail, q);
      }
    }
  }

  /** A page drawn from the rows of `m` lists matching rows of `m`, each as stored. */
  lemma PageIsStored(m: map<int, Task>, rows: seq<Task>, q: Query, ranks: EnumRanks)
    requires Identified(rows) && q.skip >= 0 && q.limit >= 1
    requires forall t :: t in rows ==> t.id.Some? && t.id.value in m && m[t.id.value] == t
    ensures var p := ListTasks(rows, q, ranks);
      forall i :: 0 <= i < |p.data| ==>
        p.data[i].id in m && Matches(m[p.data[i].id], q) && p.data[i] == ToResponse(m[p.data[i].id])
  {
    var p := ListTasks(rows, q, ranks);
    forall i | 0 <= i < |p.data|
      ensures p.data[i].id in m && Matches(m[p.data[i].id], q) && p.data[i] == ToResponse(m[p.data[i].id])
    {
      var t := AsTask(p.data[i]);
      assert t in rows && Matches(t, q);
      assert t.id == Some(p.data[i].id);
    }
  }

  /** The ids of the rows of `m` that match `q`. */
  function MatchingIn(m: map<int, Task>, q: Query): (keys: set<int>) {
    set k | k in m && Matches(m[k], q)
  }

  /** When `ks` holds exactly the keys of `m`, its matching keys are those of `m`. */
  lemma AllKeysMatching(m: map<int, Task>, ks: seq<int>, q: Query)
    requires forall i :: 0 <= i < |ks| ==> ks[i] in m
    requires forall k :: k in m ==> k in ks
    ensures MatchingKeys(m, ks, q) == MatchingIn(m, q)
  {
    var a := MatchingKeys(m, ks, q);
    var b := MatchingIn(m, q);
    forall k | k in a ensures k in b {}
    forall k | k in b ensures k in a {}
  }

  // ---------------------------------------------------------------- partial update

  /** `setattr(task, key, value)` for one dumped field. */
  function SetField(t: Task, v: FieldValue): (r: Task)
    ensures r.id == t.id && r.createdAt == t.createdAt && r.updatedAt == t.updatedAt
    ensures v.TitleSet? ==> r == t.(title := v.title)
    ensures v.DescriptionSet? ==> r == t.(description := v.description)
    ensures v.StatusSet? ==> r == t.(status := v.status)
    ensures v.PrioritySet? ==> r == t.(priority := v.priority)
    ensures v.DueDateSet? ==> r == t.(dueDate := v.dueDate)
    ensures v.AssignedToSet? ==> r == t.(assignedTo := v.assignedTo)
  {
    match v
    case TitleSet(x) => t.(title := x)
    case DescriptionSet(x) => t.(description := x)
    case StatusSet(x) => t.(status := x)
    case PrioritySet(x) => t.(priority := x)
    case DueDateSet(x) => t.(dueDate := x)
    case AssignedToSet(x) => t.(assignedTo := x)
  }

  /** The task after `setattr` for each entry of `d` in turn. */
  function ApplyAll(t: Task, d: seq<FieldValue>): (r: Task)
    decreases |d|
  {
    if d == [] then t else ApplyAll(SetField(t, d[0]), d[1..])
  }

  /** The `for key, value in task_data.items(): setattr(task, key, value)` loop. */
  method SetAll(t: Task, items: seq<FieldValue>) returns (task: Task)
    ensures task == ApplyAll(t, items)
  {
    task := t;
    var i := 0;
    while i < |items|
      invariant 0 <= i <= |items|
      invariant ApplyAll(task, items[i..]) == ApplyAll(t, items)
    {
      assert items[i..][1..] == items[i + 1..];
      task := SetField(task, items[i]);
      i := i + 1;
    }
  }

  /** Applying `x + y` is applying `x`, then `y`. */
  lemma {:induction false} ApplyAllConcat(t: Task, x: seq<FieldValue>, y: seq<FieldValue>)
    ensures ApplyAll(t, x + y) == ApplyAll(ApplyAll(t, x), y)
    decreases |x|
  {
    if x == [] {
      assert x + y == y;
    } else {
      assert (x + y)[1..] == x[1..] + y;
      ApplyAllConcat(SetField(t, x[0]), x[1..], y);
    }
  }

  /** The partial update as intended: each set field takes its value, the others keep theirs. */
  function Patch(t: Task, u: TaskUpdate): (r: Task)
    requires NoNullInRequired(u)
  {
    t.(
      title := if u.title.Some? then u.title.value.value else t.title,
      description := if u.description.Some? then u.description.value else t.description,
      status := if u.status.Some? then u.status.value.value else t.status,
      priority := if u.priority.Some? then u.priority.value.value else t.priority,
      dueDate := if u.dueDate.Some? then u.dueDate.value else t.dueDate,
      assignedTo := if u.assignedTo.Some? then u.assignedTo.value else t.assignedTo)
  }

  /** Applying one more entry, or none. */
  lemma ApplyAllStep(t: Task, d: seq<FieldValue>, e: seq<FieldValue>)
    requires |e| <= 1
    ensures ApplyAll(t, d + e) == if e == [] then ApplyAll(t, d) else SetField(ApplyAll(t, d), e[0])
  {
    ApplyAllConcat(t, d, e);
    if e != [] {
      assert e[1..] == [];
    }
  }

  /** Applying the first three dumped fields. */
  lemma ApplyDumpHead(t: Task, u: TaskUpdate)
    requires NoNullInRequired(u)
    ensures ApplyAll(t, DumpHead(u)) == t.(
      title := if u.title.Some? then u.title.value.value else t.title,
      description := if u.description.Some? then u.description.value else t.description,
      status := if u.status.Some? then u.status.value.value else t.status)
  {
    var a1 := if u.title.Some? then [TitleSet(u.title.value.value)] else [];
    var a2 := if u.description.Some? then [DescriptionSet(u.description.value)] else [];
    var a3 := if u.status.Some? then [StatusSet(u.status.value.value)] else [];
    ApplyAllStep(t, [], a1);
    assert [] + a1 == a1;
    ApplyAllStep(t, a1, a2);
    ApplyAllStep(t, a1 + a2, a3);
  }

  /** Applying the last three dumped fields. */
  lemma ApplyDumpTail(t: Task, u: TaskUpdate)
    requires NoNullInRequired(u)
    ensures ApplyAll(t, DumpTail(u)) == t.(
      priority := if u.priority.Some? then u.priority.value.value else t.priority,
      dueDate := if u.dueDate.Some? then u.dueDate.value else t.dueDate,
      assignedTo := if u.assignedTo.Some? then u.assignedTo.value else t.assignedTo)
  {
    var a4 := if u.priority.Some? then [PrioritySet(u.priority.value.value)] else [];
    var a5 := if u.dueDate.Some? then [DueDateSet(u.dueDate.value)] else [];
    var a6 := if u.assignedTo.Some? then [AssignedToSet(u.assignedTo.value)] else [];
    ApplyAllStep(t, [], a4);
    assert [] + a4 == a4;
    ApplyAllStep(t, a4, a5);
    ApplyAllStep(t, a4 + a5, a6);
  }

  /** The `setattr` loop over the dumped fields performs exactly `Patch`. */
  lemma DumpAppliesPatch(t: Task, u: TaskUpdate)
    requires NoNullInRequired(u)
    ensures ApplyAll(t, Dump(u)) == Patch(t, u)
  {
    assert Dump(u) == DumpHead(u) + DumpTail(u);
    ApplyAllConcat(t, DumpHead(u), DumpTail(u));
    ApplyDumpHead(t, u);
    ApplyDumpTail(ApplyAll(t, DumpHead(u)), u);
  }

  /** The update with a set title replaced by its stripped form, as the service writes it. */
  function TrimTitle(u: TaskUpdate): (r: TaskUpdate) {
    if u.title.Some? && u.title.value.Some? then u.(title := Some(Some(Strip(u.title.value.value)))) else u
  }

  /**
   * An update that passed the service's title check leaves a stored task
   * normalised, with its id and creation time.
   */
  lemma PatchKeepsNormalised(t: Task, u: TaskUpdate)
    requires Normalised(t) && UpdateWithinBounds(u) && NoNullInRequired(u)
    requires u.title.Some? ==> !AllSpace(u.title.value.value)
    ensures NoNullInRequired(TrimTitle(u))
    ensures Normalised(Patch(t, TrimTitle(u)))
    ensures Patch(t, TrimTitle(u)).id == t.id && Patch(t, TrimTitle(u)).createdAt == t.createdAt
  {
  }

  // ---------------------------------------------------------------- schema and service together

  /** A title the create schema accepted passes the service's own title check unchanged. */
  lemma CreateTitleSurvivesService(req: CreateRequest, now: int)
    requires ValidateCreate(req, now).Success?
    ensures var c := ValidateCreate(req, now).value;
      !AllSpace(c.title) && Strip(c.title) == c.title
  {
    StrippedIsFixpoint(ValidateCreate(req, now).value.title);
  }

  /** A title the update schema accepted passes the service's title check unchanged. */
  lemma UpdateTitleSurvivesService(req: UpdateRequest, now: int)
    requires ValidateUpdate(req, now).Success?
    ensures var u := ValidateUpdate(req, now).value;
      && NoNullInRequired(u) == NoNullInRequired(TrimTitle(u))
      && (u.title.Some? && u.title.value.Some? ==> !AllSpace(u.title.value.value))
      && TrimTitle(u) == u
  {
    if req.title.Some? && req.title.value.Some? {
      StripIdempotent(req.title.value.value);
    }
  }

  /**
   * A due date at exactly `now` passes the schema, which refuses only the
   * past, and is then refused by the service, which wants the future.
   */
  lemma DueDateAtNow(d: DateTimeInput, now: int)
    requires AsUtc(d).Instant() == now
    ensures ValidateDueDate(Some(d), now) == Success(Some(AsUtc(d)))
    ensures DueDateRejected(Some(AsUtc(d)), now)
  {
  }

  // ---------------------------------------------------------------- the store

  /**
   * What the table keeps: ids are positive and below the next id, each row
   * carries its own id and is normalised, and the row order lists every id
   * once, ascending.
   */
  ghost predicate StoreInvariant(tasks: map<int, Task>, order: seq<int>, nextId: int) {
    && nextId >= 1
    && Increasing(order)
    && (forall i :: 0 <= i < |order| ==> order[i] in tasks)
    && (forall k :: k in tasks ==> k in order)
    && (forall k :: k in tasks ==> 1 <= k < nextId && tasks[k].id == Some(k) && Normalised(tasks[k]))
  }

  /** The rows of a store, in row order, carry ascending ids, each the key it is stored under. */
  lemma RowsOfStore(tasks: map<int, Task>, order: seq<int>, nextId: int)
    requires StoreInvariant(tasks, order, nextId)
    ensures Identified(Lookup(tasks, order)) && IncreasingIds(Lookup(tasks, order))
    ensures forall t :: t in Lookup(tasks, order) ==>
      t.id.Some? && t.id.value in tasks && tasks[t.id.value] == t
  {
    var rows := Lookup(tasks, order);
    assert forall t :: t in rows ==> exists i :: 0 <= i < |order| && t == tasks[order[i]];
  }

  /** Each response of `data` is a row of `m` that matches `q`, as stored under its id. */
  predicate ListedFrom(data: seq<TaskResponse>, m: map<int, Task>, q: Query) {
    forall i :: 0 <= i < |data| ==>
      && data[i].id in MatchingIn(m, q)
      && data[i].id in m && m[data[i].id].id == Some(data[i].id)
      && data[i] == ToResponse(m[data[i].id])
  }

  /** Over a store, `total` is the number of rows of the map that match. */
  lemma ListCountsStore(tasks: map<int, Task>, order: seq<int>, nextId: int, q: Query, ranks: EnumRanks)
    requires StoreInvariant(tasks, order, nextId) && q.skip >= 0 && q.limit >= 1
    ensures Identified(Lookup(tasks, order))
    ensures ListTasks(Lookup(tasks, order), q, ranks).total == |MatchingIn(tasks, q)|
  {
    RowsOfStore(tasks, order, nextId);
    SelectionCountsKeys(tasks, order, q);
    AllKeysMatching(tasks, order, q);
  }

  /** Over a store, every listed response is a stored row that matches. */
  lemma ListDrawsFromStore(tasks: map<int, Task>, order: seq<int>, nextId: int, q: Query, ranks: EnumRanks)
    requires StoreInvariant(tasks, order, nextId) && q.skip >= 0 && q.limit >= 1
    ensures Identified(Lookup(tasks, order))
    ensures ListedFrom(ListTasks(Lookup(tasks, order), q, ranks).data, tasks, q)
  {
    RowsOfStore(tasks, order, nextId);
    PageIsStored(tasks, Lookup(tasks, order), q, ranks);
  }

  /** Over a store and with no sort column, the listing is in ascending id. */
  lemma ListNaturalOrder(tasks: map<int, Task>, order: seq<int>, nextId: int, q: Query, ranks: EnumRanks)
    requires StoreInvariant(tasks, order, nextId) && q.skip >= 0 && q.limit >= 1
    requires OrderingOf(q, ranks).None?
    ensures Identified(Lookup(tasks, order))
    ensures AscendingIds(ListTasks(Lookup(tasks, order), q, ranks).data)
  {
    RowsOfStore(tasks, order, nextId);
    NaturalOrderPage(Lookup(tasks, order), q, ranks);
  }

  /** `data` is `page`, response by response. */
  predicate Shows(data: seq<TaskResponse>, page: seq<Task>) {
    |data| == |page| && forall i :: 0 <= i < |data| ==> AsTask(data[i]) == page[i]
  }

  /** Over a store, the listing shows the page the query selects from the stored rows. */
  lemma ListShowsPage(tasks: map<int, Task>, order: seq<int>, nextId: int, q: Query, ranks: EnumRanks)
    requires StoreInvariant(tasks, order, nextId) && q.skip >= 0 && q.limit >= 1
    ensures Identified(Lookup(tasks, order))
    ensures Shows(ListTasks(Lookup(tasks, order), q, ranks).data, PageOf(Lookup(tasks, order), q, ranks))
  {
    RowsOfStore(tasks, order, nextId);
    PageLength(Lookup(tasks, order), q, ranks);
  }

  /** Inserting a normalised row under the next id keeps the invariant. */
  lemma InsertKeepsInvariant(tasks: map<int, Task>, order: seq<int>, nextId: int, t: Task)
    requires StoreInvariant(tasks, order, nextId)
    requires t.id == Some(nextId) && Normalised(t)
    ensures nextId !in tasks
    ensures StoreInvariant(tasks[nextId := t], order + [nextId], nextId + 1)
  {
    var o := order + [nextId];
    forall i, j | 0 <= i < j < |o| ensures o[i] < o[j] {
      if j == |order| {
        assert order[i] in tasks;
      }
    }
  }

  /** Replacing a row by a normalised one with the same id keeps the invariant. */
  lemma ReplaceKeepsInvariant(tasks: map<int, Task>, order: seq<int>, nextId: int, t: Task)
    requires StoreInvariant(tasks, order, nextId)
    requires t.id.Some? && t.id.value in tasks && Normalised(t)
    ensures StoreInvariant(tasks[t.id.value := t], order, nextId)
  {
  }

  /** Removing a row keeps the invariant. */
  lemma RemoveKeepsInvariant(tasks: map<int, Task>, order: seq<int>, nextId: int, id: int)
    requires StoreInvariant(tasks, order, nextId)
    ensures StoreInvariant(tasks - {id}, Without(order, id), nextId)
  {
    WithoutKeepsOrder(order, id);
  }


  class TaskStore {
    /** The rows, by id. */
    var tasks: map<int, Task>
    /** The ids in the table's row order. */
    var order: seq<int>
    /** The id the next insert receives. */
    var nextId: int

    ghost predicate Valid()
      reads this
    {
      StoreInvariant(tasks, order, nextId)
    }

    /** An empty table. */
    constructor ()
      ensures Valid()
      ensures tasks == map[] && order == [] && nextId == 1
    {
      tasks := map[];
      order := [];
      nextId := 1;
    }

    /** The rows in row order, which is ascending id. */
    function Rows(): (rows: seq<Task>)
      reads this
      requires Valid()
      ensures |rows| == |order|
      ensures forall i :: 0 <= i < |order| ==> rows[i] == tasks[order[i]]
      ensures Identified(rows) && IncreasingIds(rows)
    {
      RowsOfStore(tasks, order, nextId);
      Lookup(tasks, order)
    }

    /** `get_task_by_id`: the stored task, or NotFound. */
    function Get(id: int): (r: Result<Task, Error>)
      reads this
      requires Valid()
      ensures r.Success? <==> id in tasks
      ensures r.Success? ==> r.value == tasks[id] && r.value.id == Some(id)
      ensures r.Failure? ==> r.error == NotFound(NotFoundMessage)
    {
      if id in tasks then Success(tasks[id]) else Failure(NotFound(NotFoundMessage))
    }

    /**
     * `create_new_task`: strips the title, refuses a blank one or a due
     * date not after `now`; otherwise stores a new task under a fresh id,
     * created at `now` and never updated.
     */
    method Create(input: TaskCreate, now: int) returns (r: Result<Task, Error>)
      requires Valid() && CreateWithinBounds(input)
      modifies this
      ensures Valid()
      ensures AllSpace(input.title) ==> r == Failure(Validation(TitleEmptyMessage))
      ensures !AllSpace(input.title) && DueDateRejected(input.dueDate, now) ==>
        r == Failure(Validation(DueDateMessage))
      ensures r.Success? <==> !AllSpace(input.title) && !DueDateRejected(input.dueDate, now)
      ensures r.Failure? ==> tasks == old(tasks) && order == old(order) && nextId == old(nextId)
      ensures r.Success? ==>
        && !AllSpace(input.title) && !DueDateRejected(input.dueDate, now)
        && r.value.id.Some? && r.value.id.value !in old(tasks)
        && tasks == old(tasks)[r.value.id.value := r.value]
        && order == old(order) + [r.value.id.value]
        && r.value.title == Strip(input.title)
        && r.value.description == input.description
        && r.value.status == input.status
        && r.value.priority == input.priority
        && r.value.dueDate == input.dueDate
        && r.value.assignedTo == input.assignedTo
        && r.value.createdAt == now
        && r.value.updatedAt == None
        && Get(r.value.id.value) == Success(r.value)
    {
      var title := Strip(input.title);
      if title == [] {
        return Failure(Validation(TitleEmptyMessage));
      }
      if input.dueDate.Some? && input.dueDate.value.Instant() <= now {
        return Failure(Validation(DueDateMessage));
      }
      var task := Construct(TaskArgs(
        title, input.description, Some(input.status), Some(input.priority),
        input.dueDate, input.assignedTo), now);
      task := task.(createdAt := now);
      // the store assigns the id on insert
      var id := nextId;
      task := task.(id := Some(id));
      InsertKeepsInvariant(tasks, order, nextId, task);
      tasks := tasks[id := task];
      order := order + [id];
      nextId := nextId + 1;
      r := Success(task);
    }

    /**
     * `update_existing_task`: NotFound first; then a set title is stripped
     * and must not be blank, and a set, non-null due date must lie after
     * `now`; then every set field is written, and `updated_at` becomes `now`.
     */
    method Update(id: int, u: TaskUpdate, now: int) returns (r: Result<Task, Error>)
      requires Valid() && UpdateWithinBounds(u) && (id in tasks ==> NoNullInRequired(u))
      modifies this
      ensures Valid()
      ensures id !in old(tasks) ==> r == Failure(NotFound(NotFoundMessage))
      ensures id in old(tasks) && u.title.Some? && AllSpace(u.title.value.value) ==>
        r == Failure(Validation(TitleEmptyMessage))
      ensures (id in old(tasks) && !(u.title.Some? && AllSpace(u.title.value.value))
               && u.dueDate.Some? && DueDateRejected(u.dueDate.value, now)) ==>
        r == Failure(Validation(DueDateMessage))
      ensures r.Success? <==>
        && id in old(tasks)
        && !(u.title.Some? && AllSpace(u.title.value.value))
        && !(u.dueDate.Some? && DueDateRejected(u.dueDate.value, now))
      ensures r.Failure? ==> tasks == old(tasks) && order == old(order) && nextId == old(nextId)
      ensures r.Success? ==>
        && id in old(tasks)
        && r.value == Patch(old(tasks)[id], TrimTitle(u)).(updatedAt := Some(now))
        && tasks == old(tasks)[id := r.value] && order == old(order) && nextId == old(nextId)
    {
      if id !in tasks {
        return Failure(NotFound(NotFoundMessage));
      }
      var original := tasks[id];
      // model_dump(exclude_unset=True), with the title replaced by its stripped form
      var data := u;
      if u.title.Some? {
        var trimmed := Strip(u.title.value.value);
        if trimmed == [] {
          return Failure(Validation(TitleEmptyMessage));
        }
        data := data.(title := Some(Some(trimmed)));
      }
      if u.dueDate.Some? && u.dueDate.value.Some? && u.dueDate.value.value.Instant() <= now {
        return Failure(Validation(DueDateMessage));
      }
      assert data == TrimTitle(u);
      PatchKeepsNormalised(original, u);
      var task := SetAll(original, Dump(data));
      DumpAppliesPatch(original, data);
      task := task.(updatedAt := Some(now));
      ReplaceKeepsInvariant(tasks, order, nextId, task);
      tasks := tasks[id := task];
      r := Success(task);
    }

    /** `delete_task_by_id`: removes the row, or gives NotFound. */
    method Delete(id: int) returns (r: Result<(), Error>)
      requires Valid()
      modifies this
      ensures Valid()
      ensures r.Failure? <==> id !in old(tasks)
      ensures r.Failure? ==>
        r.error == NotFound(NotFoundMessage) && tasks == old(tasks) && order == old(order) && nextId == old(nextId)
      ensures r.Success? ==>
        tasks == old(tasks) - {id} && order == Without(old(order), id) && nextId == old(nextId)
      ensures Get(id) == Failure(NotFound(NotFoundMessage))
    {
      if id !in tasks {
        return Failure(NotFound(NotFoundMessage));
      }
      RemoveKeepsInvariant(tasks, order, nextId, id);
      tasks := tasks - {id};
      order := Without(order, id);
      r := Success(());
    }

    /**
     * `get_paginated_tasks`: the page of matching rows, how many rows match,
     * the paging parameters echoed back and the page count.
     */
    function List(q: Query, ranks: EnumRanks): (p: PaginatedResponse<TaskResponse>)
      reads this
      requires Valid() && q.skip >= 0 && q.limit >= 1
      ensures p.total == |MatchingIn(tasks, q)|
      ensures p.limit == q.limit && p.offset == q.skip
      ensures p.pages == Pages(p.total, q.limit)
      ensures |p.data| == Min(q.limit, Max(0, p.total - q.skip))
      ensures ListedFrom(p.data, tasks, q)
      ensures OrderingOf(q, ranks).Some? ==> ResponsesSortedBy(p.data, OrderingOf(q, ranks).value)
      ensures OrderingOf(q, ranks).None? ==> AscendingIds(p.data)
      ensures Shows(p.data, PageOf(Rows(), q, ranks))
      ensures OrderingOf(q, ranks).None? ==>
        PageOf(Rows(), q, ranks) == Window(Filter(Rows(), q), q.skip, q.limit)
    {
      ListShowsPage(tasks, order, nextId, q, ranks);
      ListCountsStore(tasks, order, nextId, q, ranks);
      ListDrawsFromStore(tasks, order, nextId, q, ranks);
      assert OrderingOf(q, ranks).None? ==> AscendingIds(ListTasks(Lookup(tasks, order), q, ranks).data) by {
        if OrderingOf(q, ranks).None? {
          ListNaturalOrder(tasks, order, nextId, q, ranks);
        }
      }
      ListTasks(Lookup(tasks, order), q, ranks)
    }
  }
}
