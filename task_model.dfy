/** The persisted Task record (models/Task.py) and its field bounds. */
module TaskModel {
  import opened Wrappers

  /** Closed status set; the enum module itself is not part of this model. */
  datatype Status = Pending | InProgress | Completed | Cancelled

  /** Closed priority set. */
  datatype Priority = Low | Medium | High

  /** A timezone-aware timestamp: local wall-clock seconds and a UTC offset in seconds. */
  datatype AwareDateTime = AwareDateTime(local: int, offset: int) {
    /** The instant it denotes, in seconds since the UTC epoch. */
    function Instant(): int {
      local - offset
    }
  }

  const MaxTitleLength: nat := 200
  const MaxDescriptionLength: nat := 1000
  const MaxAssigneeLength: nat := 100

  const DefaultStatus: Status := Pending
  const DefaultPriority: Priority := Medium

  /**
   * A task row. `id` is None until the store assigns it; timestamps other
   * than the due date are UTC instants.
   */
  datatype Task = Task(
    id: Option<int>,
    title: string,
    description: Option<string>,
    status: Status,
    priority: Priority,
    createdAt: int,
    updatedAt: Option<int>,
    dueDate: Option<AwareDateTime>,
    assignedTo: Option<string>)

  /** An optional string is absent or at most `max` characters long. */
  predicate FitsIn(s: Option<string>, max: nat) {
    s.None? || |s.value| <= max
  }

  /** The column length limits the model declares. */
  predicate WithinBounds(t: Task) {
    && |t.title| <= MaxTitleLength
    && FitsIn(t.description, MaxDescriptionLength)
    && FitsIn(t.assignedTo, MaxAssigneeLength)
  }

  /** Keyword arguments for constructing a Task; None stands for an omitted argument. */
  datatype TaskArgs = TaskArgs(
    title: string,
    description: Option<string>,
    status: Option<Status>,
    priority: Option<Priority>,
    dueDate: Option<AwareDateTime>,
    assignedTo: Option<string>)

  /**
   * `Task(**args)` at instant `constructedAt`: supplied arguments are taken
   * as given, omitted ones take the model's defaults, and the fields no
   * argument names start unset.
   */
  function Construct(args: TaskArgs, constructedAt: int): (t: Task)
    ensures t.id == None && t.updatedAt == None
    ensures t.createdAt == constructedAt
    ensures t.status == (if args.status.Some? then args.status.value else Pending)
    ensures t.priority == (if args.priority.Some? then args.priority.value else Medium)
    ensures t.title == args.title && t.description == args.description
    ensures t.dueDate == args.dueDate && t.assignedTo == args.assignedTo
    ensures WithinBounds(t) <==>
      |args.title| <= 200 && FitsIn(args.description, 1000) && FitsIn(args.assignedTo, 100)
  {
    Task(
      id := None,
      title := args.title,
      description := args.description,
      status := args.status.GetOr(DefaultStatus),
      priority := args.priority.GetOr(DefaultPriority),
      createdAt := constructedAt,
      updatedAt := None,
      dueDate := args.dueDate,
      assignedTo := args.assignedTo)
  }
}
