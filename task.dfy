/**
 * Rows of the Tasks table, the request bodies that create and update them,
 * their validation, and the pieces from which the list and update
 * statements are assembled.
 */
module TaskModel {
  import opened Common
  import opened Js

  /** A row of the Tasks table. Timestamps are integers; NULL columns are `None`. */
  datatype Task = Task(
    id: int,
    title: string,
    description: Option<string>,
    status: string,
    priority: string,
    userId: int,
    dueDate: Option<int>,
    createdAt: int,
    updatedAt: int)

  const Statuses: set<string> := {"pending", "in_progress", "completed", "cancelled"}
  const Priorities: set<string> := {"low", "medium", "high", "urgent"}
  const DefaultStatus := "pending"
  const DefaultPriority := "medium"

  /** What create and update together guarantee of every stored row. */
  predicate WellFormed(t: Task)
  {
    t.title != "" && t.status in Statuses && t.priority in Priorities
  }

  /** The body of a create or update request. */
  datatype TaskBody = TaskBody(
    title: Field<string>,
    description: Field<string>,
    status: Field<string>,
    priority: Field<string>,
    dueDate: Field<int>)

  datatype TaskError =
    | TitleRequired            // create without a truthy title
    | InvalidStatus            // create with a status outside the four values
    | InvalidPriority          // create with a priority outside the four values
    | TaskNotFound             // no row with that id owned by the caller
    | InvalidStatusOnUpdate    // update with a truthy status outside the four values
    | InvalidPriorityOnUpdate  // update with a truthy priority outside the four values

  function StatusCode(e: TaskError): int
  {
    if e == TaskNotFound then 404 else 400
  }

  function Message(e: TaskError): string
  {
    match e
    case TitleRequired => "El título es requerido"
    case InvalidStatus => "Status inválido. Debe ser: pending, in_progress, completed, o cancelled"
    case InvalidPriority => "Prioridad inválida. Debe ser: low, medium, high, o urgent"
    case TaskNotFound => "Tarea no encontrada"
    case InvalidStatusOnUpdate => "Status inválido"
    case InvalidPriorityOnUpdate => "Prioridad inválida"
  }

  /** A destructuring default such as `status = 'pending'`: it replaces `undefined` only, not `null`. */
  function WithDefault(f: Field<string>, default: string): Option<string>
  {
    match f
    case Absent => Some(default)
    case Null => None
    case Given(s) => Some(s)
  }

  /** `valid.includes(v)`, where a `null` value is never included. */
  predicate Includes(valid: set<string>, v: Option<string>)
  {
    v.Some? && v.value in valid
  }

  /** `x || null` for a string property. */
  function OrNull(f: Field<string>): Option<string>
  {
    if Truthy(f) then Some(f.value) else None
  }

  /** `x || null` for a date property; a supplied date is a non-empty string, hence truthy. */
  function DateOrNull(f: Field<int>): Option<int>
  {
    if f.Given? then Some(f.value) else None
  }

  /** A property assigned when it is `!== undefined`: `null` stores NULL, a value stores itself. */
  function Overwrite<T>(f: Field<T>, current: Option<T>): Option<T>
  {
    match f
    case Absent => current
    case Null => None
    case Given(v) => Some(v)
  }

  /** Validation and the row `INSERT ... OUTPUT INSERTED.*` produces for a create request. */
  function NewTask(body: TaskBody, id: int, userId: int, now: int): (r: Result<Task, TaskError>)
    ensures !Truthy(body.title) ==> r == Err(TitleRequired)
    ensures Truthy(body.title) && !Includes(Statuses, WithDefault(body.status, DefaultStatus)) ==> r == Err(InvalidStatus)
    ensures Truthy(body.title) && body.status.Null? ==> r == Err(InvalidStatus)
    ensures (&& Truthy(body.title) && Includes(Statuses, WithDefault(body.status, DefaultStatus))
             && !Includes(Priorities, WithDefault(body.priority, DefaultPriority)))
      ==> r == Err(InvalidPriority)
    ensures r.Ok? <==> Truthy(body.title) && Includes(Statuses, WithDefault(body.status, DefaultStatus))
                       && Includes(Priorities, WithDefault(body.priority, DefaultPriority))
    ensures r.Ok? ==> WellFormed(r.value)
    ensures r.Ok? ==> r.value.id == id && r.value.userId == userId && r.value.createdAt == now && r.value.updatedAt == now
    ensures r.Ok? ==> r.value.title == body.title.value
    ensures r.Ok? ==> r.value.description == OrNull(body.description) && r.value.dueDate == DateOrNull(body.dueDate)
    ensures r.Ok? ==> (body.status.Absent? ==> r.value.status == DefaultStatus)
                      && (body.status.Given? ==> r.value.status == body.status.value)
    ensures r.Ok? ==> (body.priority.Absent? ==> r.value.priority == DefaultPriority)
                      && (body.priority.Given? ==> r.value.priority == body.priority.value)
  {
    if !Truthy(body.title) then Err(TitleRequired)
    else
      var status := WithDefault(body.status, DefaultStatus);
      if !Includes(Statuses, status) then Err(InvalidStatus)
      else
        var priority := WithDefault(body.priority, DefaultPriority);
        if !Includes(Priorities, priority) then Err(InvalidPriority)
        else Ok(Task(id, body.title.value, OrNull(body.description), status.value, priority.value,
                     userId, DateOrNull(body.dueDate), now, now))
  }

  /** The error an update body is answered with once ownership is confirmed, if any. */
  function UpdateRejection(body: TaskBody): (r: Option<TaskError>)
    ensures r.None? <==> (Truthy(body.status) ==> body.status.value in Statuses)
                         && (Truthy(body.priority) ==> body.priority.value in Priorities)
    ensures r == Some(InvalidStatusOnUpdate) <==> Truthy(body.status) && body.status.value !in Statuses
    ensures r.Some? ==> r.value == InvalidStatusOnUpdate || r.value == InvalidPriorityOnUpdate
  {
    if Truthy(body.status) && body.status.value !in Statuses then Some(InvalidStatusOnUpdate)
    else if Truthy(body.priority) && body.priority.value !in Priorities then Some(InvalidPriorityOnUpdate)
    else None
  }

  /**
   * The row a successful update leaves: truthy title, status and priority
   * replace the old ones; description and due date are replaced whenever
   * they are not undefined; updatedAt is always `now`.
   */
  function Patched(row: Task, body: TaskBody, now: int): (r: Task)
    ensures r.id == row.id && r.userId == row.userId && r.createdAt == row.createdAt && r.updatedAt == now
    ensures Truthy(body.title) ==> r.title == body.title.value
    ensures !Truthy(body.title) ==> r.title == row.title
    ensures body.description.Absent? ==> r.description == row.description
    ensures body.description.Null? ==> r.description == None
    ensures body.description.Given? ==> r.description == Some(body.description.value)
    ensures Truthy(body.status) ==> r.status == body.status.value
    ensures !Truthy(body.status) ==> r.status == row.status
    ensures Truthy(body.priority) ==> r.priority == body.priority.value
    ensures !Truthy(body.priority) ==> r.priority == row.priority
    ensures body.dueDate.Absent? ==> r.dueDate == row.dueDate
    ensures body.dueDate.Null? ==> r.dueDate == None
    ensures body.dueDate.Given? ==> r.dueDate == Some(body.dueDate.value)
    ensures WellFormed(row) && UpdateRejection(body).None? ==> WellFormed(r)
  {
    row.(updatedAt := now,
         title := if Truthy(body.title) then body.title.value else row.title,
         description := Overwrite(body.description, row.description),
         status := if Truthy(body.status) then body.status.value else row.status,
         priority := if Truthy(body.priority) then body.priority.value else row.priority,
         dueDate := Overwrite(body.dueDate, row.dueDate))
  }

  /** A body with no properties at all changes nothing but updatedAt. */
  lemma EmptyUpdateOnlyRefreshes(row: Task, now: int)
    ensures Patched(row, TaskBody(Absent, Absent, Absent, Absent, Absent), now) == row.(updatedAt := now)
  {
  }

  /** One `column = @value` item of the statement's SET list. */
  datatype Assignment =
    | SetUpdatedAt(at: int)
    | SetTitle(title: string)
    | SetDescription(description: Option<string>)
    | SetStatus(status: string)
    | SetPriority(priority: string)
    | SetDueDate(dueDate: Option<int>)

  function Assign(t: Task, a: Assignment): Task
  {
    match a
    case SetUpdatedAt(at) => t.(updatedAt := at)
    case SetTitle(title) => t.(title := title)
    case SetDescription(description) => t.(description := description)
    case SetStatus(status) => t.(status := status)
    case SetPriority(priority) => t.(priority := priority)
    case SetDueDate(dueDate) => t.(dueDate := dueDate)
  }

  /** The row after the whole SET list, applied in the order it was written. */
  function AssignAll(t: Task, sets: seq<Assignment>): Task
    decreases |sets|
  {
    if sets == [] then t else Assign(AssignAll(t, sets[..|sets| - 1]), sets[|sets| - 1])
  }

  lemma AssignAllSnoc(t: Task, sets: seq<Assignment>, a: Assignment)
    ensures AssignAll(t, sets + [a]) == Assign(AssignAll(t, sets), a)
  {
  }

  /** The query string of a list request. */
  datatype TaskQuery = TaskQuery(status: Option<string>, priority: Option<string>, sortBy: Option<string>, order: Option<string>)

  /** One conjunct of the list statement's WHERE clause. */
  datatype Condition = OwnerIs(userId: int) | StatusIs(status: string) | PriorityIs(priority: string)

  predicate Holds(c: Condition, t: Task)
  {
    match c
    case OwnerIs(userId) => t.userId == userId
    case StatusIs(status) => t.status == status
    case PriorityIs(priority) => t.priority == priority
  }

  predicate AllHold(conds: seq<Condition>, t: Task)
  {
    forall i :: 0 <= i < |conds| ==> Holds(conds[i], t)
  }

  lemma AllHoldSnoc(conds: seq<Condition>, c: Condition)
    ensures forall t :: AllHold(conds + [c], t) <==> AllHold(conds, t) && Holds(c, t)
  {
    forall t ensures AllHold(conds + [c], t) <==> AllHold(conds, t) && Holds(c, t) {
      if AllHold(conds + [c], t) {
        assert Holds((conds + [c])[|conds|], t);
        forall i | 0 <= i < |conds| ensures Holds(conds[i], t) {
          assert (conds + [c])[i] == conds[i];
        }
      }
    }
  }

  /** The rows a list request asks for: the caller's, restricted by each truthy filter. */
  predicate Matches(t: Task, userId: int, q: TaskQuery)
  {
    && t.userId == userId
    && (TruthyOpt(q.status) ==> t.status == q.status.value)
    && (TruthyOpt(q.priority) ==> t.priority == q.priority.value)
  }
}
