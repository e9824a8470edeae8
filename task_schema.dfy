/**
 * The boundary shapes of schemas/TaskSchema.py: the create and update
 * payloads with their validators, the response projection and the
 * paginated envelope.
 */
module TaskSchema {
  import opened Wrappers
  import opened Errors
  import opened Text
  import opened TaskModel

  const TitleRequiredMessage := "Field required"
  const TitleBlankMessage := "Title cannot be empty or whitespace only."
  const DueDatePastMessage := "Due date must be in the future."
  const TitleTooLongMessage := "String should have at most 200 characters"
  const DescriptionTooLongMessage := "String should have at most 1000 characters"
  const AssigneeTooLongMessage := "String should have at most 100 characters"

  /** A timestamp as it arrives on the wire: with a UTC offset, or naive. */
  datatype DateTimeInput = DateTimeInput(local: int, offset: Option<int>)

  // ---------------------------------------------------------------- field validators

  /** A `max_length` constraint on an optional string field. */
  function CheckLength(s: Option<string>, max: nat, message: string): (r: Result<Option<string>, Error>)
    ensures r.Success? <==> FitsIn(s, max)
    ensures r.Success? ==> r.value == s
    ensures r.Failure? ==> r.error == Validation(message)
  {
    if FitsIn(s, max) then Success(s) else Failure(Validation(message))
  }

  /** `TaskCreate.validate_title`: the title, stripped; a blank title is refused. */
  function ValidateTitle(v: string): (r: Result<string, Error>)
    ensures r.Success? <==> !AllSpace(v)
    ensures r.Success? ==> r.value == Strip(v) && r.value != [] && Stripped(r.value) && |r.value| <= |v|
    ensures r.Failure? ==> r.error == Validation(TitleBlankMessage)
  {
    var trimmed := Strip(v);
    if trimmed == [] then Failure(Validation(TitleBlankMessage)) else Success(trimmed)
  }

  /** `TaskUpdate.validate_title`: as `ValidateTitle`, but an explicit null passes through. */
  function ValidateOptionalTitle(v: Option<string>): (r: Result<Option<string>, Error>)
    ensures v.None? ==> r == Success(None)
    ensures v.Some? ==> (r.Success? <==> !AllSpace(v.value))
    ensures v.Some? && r.Success? ==> r.value == Some(Strip(v.value)) && Stripped(Strip(v.value))
    ensures r.Failure? ==> r.error == Validation(TitleBlankMessage)
  {
    match v
    case None => Success(None)
    case Some(title) =>
      var trimmed :- ValidateTitle(title);
      Success(Some(trimmed))
  }

  /** A naive timestamp is read as UTC; an aware one keeps its offset. */
  function AsUtc(d: DateTimeInput): (r: AwareDateTime)
    ensures r.local == d.local
    ensures r.offset == d.offset.GetOr(0)
    ensures d.offset.None? ==> r.Instant() == d.local
  {
    match d.offset
    case Some(offset) => AwareDateTime(d.local, offset)
    case None => AwareDateTime(d.local, 0)
  }

  /**
   * `validate_due_date` (the same in both payloads): a due date strictly
   * earlier than `now` is refused; one equal to `now` is accepted.
   */
  function ValidateDueDate(v: Option<DateTimeInput>, now: int): (r: Result<Option<AwareDateTime>, Error>)
    ensures v.None? ==> r == Success(None)
    ensures v.Some? ==> (r.Failure? <==> AsUtc(v.value).Instant() < now)
    ensures v.Some? && r.Success? ==> r.value == Some(AsUtc(v.value)) && r.value.value.Instant() >= now
    ensures r.Failure? ==> r.error == Validation(DueDatePastMessage)
  {
    match v
    case None => Success(None)
    case Some(raw) =>
      var d := AsUtc(raw);
      if d.Instant() < now then Failure(Validation(DueDatePastMessage)) else Success(Some(d))
  }

  // ---------------------------------------------------------------- TaskCreate

  /** A create request body; None is an omitted (or, for nullable fields, null) field. */
  datatype CreateRequest = CreateRequest(
    title: Option<string>,
    description: Option<string>,
    status: Option<Status>,
    priority: Option<Priority>,
    dueDate: Option<DateTimeInput>,
    assignedTo: Option<string>)

  /** A validated create payload. */
  datatype TaskCreate = TaskCreate(
    title: string,
    description: Option<string>,
    status: Status,
    priority: Priority,
    dueDate: Option<AwareDateTime>,
    assignedTo: Option<string>)

  /** The length limits every `TaskCreate` satisfies. */
  predicate CreateWithinBounds(c: TaskCreate) {
    && |c.title| <= MaxTitleLength
    && FitsIn(c.description, MaxDescriptionLength)
    && FitsIn(c.assignedTo, MaxAssigneeLength)
  }

  /**
   * Parsing a create request into a `TaskCreate`, field by field in
   * declaration order; the first failing field's error is reported.
   */
  function ValidateCreate(req: CreateRequest, now: int): (r: Result<TaskCreate, Error>)
    ensures r.Success? <==>
      && req.title.Some? && |req.title.value| <= 200 && !AllSpace(req.title.value)
      && FitsIn(req.description, 1000)
      && (req.dueDate.Some? ==> AsUtc(req.dueDate.value).Instant() >= now)
      && FitsIn(req.assignedTo, 100)
    ensures r.Success? ==>
      && r.value.title == Strip(req.title.value) && r.value.title != [] && Stripped(r.value.title)
      && r.value.description == req.description
      && r.value.status == (if req.status.Some? then req.status.value else Pending)
      && r.value.priority == (if req.priority.Some? then req.priority.value else Medium)
      && r.value.dueDate == (if req.dueDate.Some? then Some(AsUtc(req.dueDate.value)) else None)
      && r.value.assignedTo == req.assignedTo
      && CreateWithinBounds(r.value)
    ensures r.Failure? ==> r.error.Validation?
  {
    if req.title.None? then Failure(Validation(TitleRequiredMessage))
    else if |req.title.value| > MaxTitleLength then Failure(Validation(TitleTooLongMessage))
    else
      var title :- ValidateTitle(req.title.value);
      var description :- CheckLength(req.description, MaxDescriptionLength, DescriptionTooLongMessage);
      var dueDate :- ValidateDueDate(req.dueDate, now);
      var assignedTo :- CheckLength(req.assignedTo, MaxAssigneeLength, AssigneeTooLongMessage);
      Success(TaskCreate(
        title, description, req.status.GetOr(DefaultStatus), req.priority.GetOr(DefaultPriority),
        dueDate, assignedTo))
  }

  // ---------------------------------------------------------------- TaskUpdate

  /**
   * An update request body. The outer Option says whether the field was
   * sent at all; the inner one whether it was sent as null.
   */
  datatype UpdateRequest = UpdateRequest(
    title: Option<Option<string>>,
    description: Option<Option<string>>,
    status: Option<Option<Status>>,
    priority: Option<Option<Priority>>,
    dueDate: Option<Option<DateTimeInput>>,
    assignedTo: Option<Option<string>>)

  /** A validated update payload, keeping which fields were set. */
  datatype TaskUpdate = TaskUpdate(
    title: Option<Option<string>>,
    description: Option<Option<string>>,
    status: Option<Option<Status>>,
    priority: Option<Option<Priority>>,
    dueDate: Option<Option<AwareDateTime>>,
    assignedTo: Option<Option<string>>)

  /** A set, non-null string field is at most `max` characters. */
  predicate SetFitsIn(f: Option<Option<string>>, max: nat) {
    f.None? || FitsIn(f.value, max)
  }

  /** The length limits every `TaskUpdate` satisfies. */
  predicate UpdateWithinBounds(u: TaskUpdate) {
    && SetFitsIn(u.title, MaxTitleLength)
    && SetFitsIn(u.description, MaxDescriptionLength)
    && SetFitsIn(u.assignedTo, MaxAssigneeLength)
  }

  /** The title field of an update: validated only when it was sent. */
  function UpdateTitle(f: Option<Option<string>>): (r: Result<Option<Option<string>>, Error>)
    ensures r.Success? <==> f.None? || f.value.None? || (|f.value.value| <= 200 && !AllSpace(f.value.value))
    ensures r.Success? ==> r.value == (if f.Some? && f.value.Some? then Some(Some(Strip(f.value.value))) else f)
    ensures r.Success? && r.value.Some? && r.value.value.Some? ==> Stripped(r.value.value.value) && r.value.value.value != []
    ensures r.Failure? ==> r.error.Validation?
  {
    match f
    case None => Success(None)
    case Some(v) =>
      var checked :- CheckLength(v, MaxTitleLength, TitleTooLongMessage);
      var title :- ValidateOptionalTitle(checked);
      Success(Some(title))
  }

  /** A string field of an update: its length is checked only when it was sent. */
  function UpdateLength(f: Option<Option<string>>, max: nat, message: string): (r: Result<Option<Option<string>>, Error>)
    ensures r.Success? <==> SetFitsIn(f, max)
    ensures r.Success? ==> r.value == f
    ensures r.Failure? ==> r.error == Validation(message)
  {
    match f
    case None => Success(None)
    case Some(v) =>
      var checked :- CheckLength(v, max, message);
      Success(Some(checked))
  }

  /** The due date field of an update: validated only when it was sent. */
  function UpdateDueDate(f: Option<Option<DateTimeInput>>, now: int): (r: Result<Option<Option<AwareDateTime>>, Error>)
    ensures r.Success? <==> f.None? || f.value.None? || AsUtc(f.value.value).Instant() >= now
    ensures r.Success? ==> r.value.Some? == f.Some?
    ensures r.Success? && f.Some? ==>
      r.value.value == (if f.value.Some? then Some(AsUtc(f.value.value)) else None)
    ensures r.Failure? ==> r.error == Validation(DueDatePastMessage)
  {
    match f
    case None => Success(None)
    case Some(v) =>
      var d :- ValidateDueDate(v, now);
      Success(Some(d))
  }

  /**
   * Parsing an update request into a `TaskUpdate`: every field that was not
   * sent stays unset, and only the values sent are validated.
   */
  function ValidateUpdate(req: UpdateRequest, now: int): (r: Result<TaskUpdate, Error>)
    ensures r.Success? <==>
      && (req.title.None? || req.title.value.None? ||
          (|req.title.value.value| <= 200 && !AllSpace(req.title.value.value)))
      && SetFitsIn(req.description, 1000)
      && (req.dueDate.None? || req.dueDate.value.None? || AsUtc(req.dueDate.value.value).Instant() >= now)
      && SetFitsIn(req.assignedTo, 100)
    ensures r.Success? ==>
      && r.value.title.Some? == req.title.Some?
      && r.value.dueDate.Some? == req.dueDate.Some?
      && (req.title.Some? ==>
            r.value.title.value == (if req.title.value.Some? then Some(Strip(req.title.value.value)) else None))
      && (req.dueDate.Some? ==>
            r.value.dueDate.value == (if req.dueDate.value.Some? then Some(AsUtc(req.dueDate.value.value)) else None))
      && r.value.description == req.description
      && r.value.status == req.status
      && r.value.priority == req.priority
      && r.value.assignedTo == req.assignedTo
      && UpdateWithinBounds(r.value)
    ensures r.Failure? ==> r.error.Validation?
  {
    var title :- UpdateTitle(req.title);
    var description :- UpdateLength(req.description, MaxDescriptionLength, DescriptionTooLongMessage);
    var dueDate :- UpdateDueDate(req.dueDate, now);
    var assignedTo :- UpdateLength(req.assignedTo, MaxAssigneeLength, AssigneeTooLongMessage);
    Success(TaskUpdate(title, description, req.status, req.priority, dueDate, assignedTo))
  }

  /** One entry of `model_dump(exclude_unset=True)`: a set field and its value. */
  datatype FieldValue =
    | TitleSet(title: string)
    | DescriptionSet(description: Option<string>)
    | StatusSet(status: Status)
    | PrioritySet(priority: Priority)
    | DueDateSet(dueDate: Option<AwareDateTime>)
    | AssignedToSet(assignedTo: Option<string>)

  /** The fields whose column is not nullable were not sent as null. */
  predicate NoNullInRequired(u: TaskUpdate) {
    u.title != Some(None) && u.status != Some(None) && u.priority != Some(None)
  }

  /** `v` is one of the fields `u` sets, with the value it sets. */
  predicate SetBy(u: TaskUpdate, v: FieldValue) {
    match v
    case TitleSet(x) => u.title == Some(Some(x))
    case DescriptionSet(x) => u.description == Some(x)
    case StatusSet(x) => u.status == Some(Some(x))
    case PrioritySet(x) => u.priority == Some(Some(x))
    case DueDateSet(x) => u.dueDate == Some(x)
    case AssignedToSet(x) => u.assignedTo == Some(x)
  }

  /** The first three dumped fields, title to status. */
  function DumpHead(u: TaskUpdate): (d: seq<FieldValue>)
    requires NoNullInRequired(u)
    ensures forall i :: 0 <= i < |d| ==> SetBy(u, d[i])
  {
    (if u.title.Some? then [TitleSet(u.title.value.value)] else [])
    + (if u.description.Some? then [DescriptionSet(u.description.value)] else [])
    + (if u.status.Some? then [StatusSet(u.status.value.value)] else [])
  }

  /** The last three dumped fields, priority to assignee. */
  function DumpTail(u: TaskUpdate): (d: seq<FieldValue>)
    requires NoNullInRequired(u)
    ensures forall i :: 0 <= i < |d| ==> SetBy(u, d[i])
  {
    (if u.priority.Some? then [PrioritySet(u.priority.value.value)] else [])
    + (if u.dueDate.Some? then [DueDateSet(u.dueDate.value)] else [])
    + (if u.assignedTo.Some? then [AssignedToSet(u.assignedTo.value)] else [])
  }

  /** `model_dump(exclude_unset=True)`: the set fields, in declaration order. */
  function Dump(u: TaskUpdate): (d: seq<FieldValue>)
    requires NoNullInRequired(u)
    ensures forall i :: 0 <= i < |d| ==> SetBy(u, d[i])
    ensures u.title.Some? ==> TitleSet(u.title.value.value) in d
    ensures u.description.Some? ==> DescriptionSet(u.description.value) in d
    ensures u.status.Some? ==> StatusSet(u.status.value.value) in d
    ensures u.priority.Some? ==> PrioritySet(u.priority.value.value) in d
    ensures u.dueDate.Some? ==> DueDateSet(u.dueDate.value) in d
    ensures u.assignedTo.Some? ==> AssignedToSet(u.assignedTo.value) in d
  {
    var head, tail := DumpHead(u), DumpTail(u);
    assert forall i :: |head| <= i < |head| + |tail| ==> (head + tail)[i] == tail[i - |head|];
    head + tail
  }

  // ---------------------------------------------------------------- responses

  /** `TaskResponse`: the read-only projection of a stored task. */
  datatype TaskResponse = TaskResponse(
    id: int,
    title: string,
    description: Option<string>,
    status: Status,
    priority: Priority,
    createdAt: int,
    updatedAt: Option<int>,
    dueDate: Option<AwareDateTime>,
    assignedTo: Option<string>)

  /** The task a response describes. */
  function AsTask(r: TaskResponse): Task {
    Task(Some(r.id), r.title, r.description, r.status, r.priority, r.createdAt, r.updatedAt, r.dueDate, r.assignedTo)
  }

  /** `TaskResponse.model_validate(task)`: loses nothing of a task that has an id. */
  function ToResponse(t: Task): (r: TaskResponse)
    requires t.id.Some?
    ensures r.id == t.id.value
    ensures AsTask(r) == t
  {
    TaskResponse(t.id.value, t.title, t.description, t.status, t.priority, t.createdAt, t.updatedAt, t.dueDate, t.assignedTo)
  }

  /** Every task of `ts` has an id. */
  predicate Identified(ts: seq<Task>) {
    forall t :: t in ts ==> t.id.Some?
  }

  /** The responses for `ts`, one per task, in order. */
  function Responses(ts: seq<Task>): (rs: seq<TaskResponse>)
    requires Identified(ts)
    ensures |rs| == |ts|
    ensures forall i :: 0 <= i < |ts| ==> rs[i] == ToResponse(ts[i])
  {
    if ts == [] then [] else [ToResponse(ts[0])] + Responses(ts[1..])
  }

  /** `PaginatedResponse[T]`. */
  datatype PaginatedResponse<T> = PaginatedResponse(data: seq<T>, total: int, limit: int, offset: int, pages: int)
}
