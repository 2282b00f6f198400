/** The records and enumerations of the goal service: Goal, its status and
    level, lifecycle events, the list response and the error kinds. */
module Model {
  import opened Wrappers

  /** GoalStatus with its exchanged short codes. */
  datatype GoalStatus = ACTIVE | DEFERRED | COMPLETED

  /** GoalStatus.getValue. */
  function Code(s: GoalStatus): (r: string)
    ensures |r| == 1
  {
    match s
    case ACTIVE => "A"
    case DEFERRED => "D"
    case COMPLETED => "C"
  }

  /** GoalStatus.values(), in declaration order. */
  const Statuses: seq<GoalStatus> := [ACTIVE, DEFERRED, COMPLETED]

  /** The status a code stands for, if any (how the JSON value maps back). */
  function StatusOfCode(c: string): (r: Option<GoalStatus>)
    ensures r.Some? ==> Code(r.value) == c
    ensures r.None? ==> forall s: GoalStatus :: Code(s) != c
  {
    if c == "A" then Some(ACTIVE)
    else if c == "D" then Some(DEFERRED)
    else if c == "C" then Some(COMPLETED)
    else None
  }

  lemma StatusCodeRoundTrip(s: GoalStatus)
    ensures StatusOfCode(Code(s)) == Some(s)
  {
  }

  lemma StatusesComplete(s: GoalStatus)
    ensures s in Statuses
  {
  }

  /** GoalLevel; its display names play no part in the core. */
  datatype GoalLevel = EASY | MODERATE | EXTREME

  /** A calendar date (java.time.LocalDate); the core only stores and compares it. */
  datatype Date = Date(year: int, month: int, day: int)

  /** A goal record. id, name, description, notes, level, completedOn and dueDate
      may be null in the Java class and are Options here; userId and status are
      always present. status defaults to ACTIVE and votes to 0. */
  datatype Goal = Goal(
    id: Option<string>,
    userId: string,
    name: Option<string>,
    description: Option<string>,
    notes: Option<seq<string>>,
    level: Option<GoalLevel>,
    completedOn: Option<Date>,
    status: GoalStatus,
    dueDate: Option<Date>,
    votes: int)

  /** Event.Type: the task variants belong to a related service and are never emitted here. */
  datatype EventType = TASK_ADDED | TASK_COMPLETED | GOAL_ADDED | GOAL_DEFERRED | GOAL_RESUMED | GOAL_COMPLETED

  /** An outbound lifecycle event: type, key (the goal id) and payload;
      the creation timestamp is not modelled. */
  datatype Event = Event(eventType: EventType, key: Option<string>, data: Goal)

  /** GoalResponse: a page of goals and the total, absent until the count is joined in. */
  datatype GoalResponse = GoalResponse(goals: seq<Goal>, totalgoals: Option<int>)

  /** The failures that reach the HTTP layer: GoalException(status, message),
      ValidationException(message) and a store failure with its message. */
  datatype GoalError =
    | GoalException(status: int, message: string)
    | ValidationException(message: string)
    | DataAccessError(message: string)

  /** Throwable.getMessage of each failure. */
  function MessageOf(e: GoalError): string
  {
    match e
    case GoalException(_, m) => m
    case ValidationException(m) => m
    case DataAccessError(m) => m
  }

  const InternalError: GoalError := GoalException(500, "Internal server error!")
  const Conflict: GoalError := GoalException(409, "Conflict!")
}
