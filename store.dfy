/**
 * The Tasks table and the task handlers that read and change it. Every
 * operation is scoped to the caller's user id, which the guard has
 * already established.
 */
module TaskStore {
  import opened Common
  import opened Js
  import opened TaskModel
  import opened TaskOrder

  /** The primary key: each row is stored under its own id. */
  ghost predicate KeysAreIds(rows: map<int, Task>)
  {
    forall k :: k in rows ==> rows[k].id == k
  }

  /** `SELECT * FROM Tasks WHERE id = @id AND userId = @userId`, first row or not found. */
  function GetTaskById(rows: map<int, Task>, id: int, userId: int): (r: Result<Task, TaskError>)
    requires KeysAreIds(rows)
    ensures r.Ok? ==> r.value in rows.Values && r.value.id == id && r.value.userId == userId
    ensures r.Err? ==> r.error == TaskNotFound
    ensures r.Err? <==> forall k :: k in rows ==> !(rows[k].id == id && rows[k].userId == userId)
  {
    if id in rows && rows[id].userId == userId then Ok(rows[id]) else Err(TaskNotFound)
  }

  /** Another user's task answers exactly as a task that does not exist. */
  lemma ForeignTaskLooksMissing(rows: map<int, Task>, id: int, userId: int)
    requires KeysAreIds(rows)
    requires id in rows && rows[id].userId != userId
    ensures GetTaskById(rows, id, userId) == GetTaskById(rows - {id}, id, userId) == Err(TaskNotFound)
  {
  }

  /** The rows a list request returns, as a set. */
  function Selected(rows: map<int, Task>, userId: int, q: TaskQuery): set<Task>
  {
    set k | k in rows && Matches(rows[k], userId, q) :: rows[k]
  }

  /** The matching rows whose id is below `bound`: what a scan in key order has seen so far. */
  function SelectedBelow(rows: map<int, Task>, bound: int, userId: int, q: TaskQuery): set<Task>
  {
    set k | k in rows && k < bound && Matches(rows[k], userId, q) :: rows[k]
  }

  lemma SelectedBelowStep(rows: map<int, Task>, bound: int, userId: int, q: TaskQuery)
    requires KeysAreIds(rows)
    ensures bound in rows ==> rows[bound] !in SelectedBelow(rows, bound, userId, q)
    ensures SelectedBelow(rows, bound + 1, userId, q) ==
      SelectedBelow(rows, bound, userId, q)
      + (if bound in rows && Matches(rows[bound], userId, q) then {rows[bound]} else {})
  {
  }

  /** One step of the key-order scan: a matching row is inserted at its place, any other key is skipped. */
  lemma ScanStep(rows: map<int, Task>, k: int, userId: int, q: TaskQuery, tasks: seq<Task>, f: SortField, d: Direction)
    requires KeysAreIds(rows)
    requires multiset(tasks) == multiset(SelectedBelow(rows, k, userId, q))
    requires Sorted(tasks, f, d)
    ensures k in rows && Matches(rows[k], userId, q) ==>
      && multiset(Insert(tasks, rows[k], f, d)) == multiset(SelectedBelow(rows, k + 1, userId, q))
      && Sorted(Insert(tasks, rows[k], f, d), f, d)
    ensures !(k in rows && Matches(rows[k], userId, q)) ==>
      multiset(tasks) == multiset(SelectedBelow(rows, k + 1, userId, q))
  {
    SelectedBelowStep(rows, k, userId, q);
    if k in rows && Matches(rows[k], userId, q) {
      InsertSorted(tasks, rows[k], f, d);
    }
  }

  /** A result holding exactly the selected rows contains only the caller's matching rows, and all of them. */
  lemma SelectedMembers(rows: map<int, Task>, userId: int, q: TaskQuery, tasks: seq<Task>)
    requires multiset(tasks) == multiset(Selected(rows, userId, q))
    ensures forall i :: 0 <= i < |tasks| ==> tasks[i] in rows.Values && Matches(tasks[i], userId, q)
    ensures forall k :: k in rows && Matches(rows[k], userId, q) ==> rows[k] in tasks
  {
    forall i | 0 <= i < |tasks| ensures tasks[i] in rows.Values && Matches(tasks[i], userId, q) {
      assert tasks[i] in multiset(tasks);
      assert tasks[i] in Selected(rows, userId, q);
    }
    forall k | k in rows && Matches(rows[k], userId, q) ensures rows[k] in tasks {
      assert rows[k] in Selected(rows, userId, q);
      assert rows[k] in multiset(tasks);
    }
  }

  /**
   * The SET list of an update, built one property at a time with the status
   * and priority checks in between; a failed check ends the construction.
   */
  method BuildUpdate(row: Task, body: TaskBody, now: int) returns (sets: seq<Assignment>, rejection: Option<TaskError>)
    ensures rejection == UpdateRejection(body)
    ensures rejection.None? ==> AssignAll(row, sets) == Patched(row, body, now)
  {
    sets := [SetUpdatedAt(now)];
    ghost var partial := row.(updatedAt := now);
    assert AssignAll(row, sets) == partial by { AssignAllSnoc(row, [], SetUpdatedAt(now)); }
    if Truthy(body.title) {
      AssignAllSnoc(row, sets, SetTitle(body.title.value));
      sets := sets + [SetTitle(body.title.value)];
      partial := partial.(title := body.title.value);
    }
    if !body.description.Absent? {
      var d := Overwrite(body.description, row.description);
      AssignAllSnoc(row, sets, SetDescription(d));
      sets := sets + [SetDescription(d)];
      partial := partial.(description := d);
    }
    if Truthy(body.status) {
      if body.status.value !in Statuses {
        return sets, Some(InvalidStatusOnUpdate);
      }
      AssignAllSnoc(row, sets, SetStatus(body.status.value));
      sets := sets + [SetStatus(body.status.value)];
      partial := partial.(status := body.status.value);
    }
    if Truthy(body.priority) {
      if body.priority.value !in Priorities {
        return sets, Some(InvalidPriorityOnUpdate);
      }
      AssignAllSnoc(row, sets, SetPriority(body.priority.value));
      sets := sets + [SetPriority(body.priority.value)];
      partial := partial.(priority := body.priority.value);
    }
    if !body.dueDate.Absent? {
      var d := Overwrite(body.dueDate, row.dueDate);
      AssignAllSnoc(row, sets, SetDueDate(d));
      sets := sets + [SetDueDate(d)];
      partial := partial.(dueDate := d);
    }
    assert partial == Patched(row, body, now);
    rejection := None;
  }

  class TaskTable {
    var rows: map<int, Task>
    var nextId: int

    /** Ids come from an identity counter; every stored row is well formed. */
    ghost predicate Valid()
      reads this
    {
      && nextId >= 1
      && KeysAreIds(rows)
      && (forall k :: k in rows ==> 1 <= k < nextId && WellFormed(rows[k]))
    }

    constructor ()
      ensures Valid() && rows == map[] && nextId == 1
    {
      rows := map[];
      nextId := 1;
    }

    /**
     * The list handler: WHERE clause from the filters, ORDER BY from the
     * sort parameters. The rows are scanned in key order.
     */
    method GetTasks(userId: int, q: TaskQuery) returns (count: nat, tasks: seq<Task>)
      requires Valid()
      ensures multiset(tasks) == multiset(Selected(rows, userId, q))
      ensures Sorted(tasks, ParseSortField(q.sortBy), ParseOrder(q.order))
      ensures count == |tasks|
      ensures forall i :: 0 <= i < |tasks| ==> tasks[i] in rows.Values && Matches(tasks[i], userId, q)
      ensures forall k :: k in rows && Matches(rows[k], userId, q) ==> rows[k] in tasks
    {
      var conds := [OwnerIs(userId)];
      AllHoldSnoc([], OwnerIs(userId));
      assert [] + [OwnerIs(userId)] == conds;
      if TruthyOpt(q.status) {
        AllHoldSnoc(conds, StatusIs(q.status.value));
        conds := conds + [StatusIs(q.status.value)];
      }
      if TruthyOpt(q.priority) {
        AllHoldSnoc(conds, PriorityIs(q.priority.value));
        conds := conds + [PriorityIs(q.priority.value)];
      }
      assert forall t :: AllHold(conds, t) <==> Matches(t, userId, q);
      var field := ParseSortField(q.sortBy);
      var dir := ParseOrder(q.order);

      tasks := [];
      var k := 1;
      while k < nextId
        invariant 1 <= k <= nextId
        invariant multiset(tasks) == multiset(SelectedBelow(rows, k, userId, q))
        invariant Sorted(tasks, field, dir)
      {
        ScanStep(rows, k, userId, q, tasks, field, dir);
        if k in rows && AllHold(conds, rows[k]) {
          tasks := Insert(tasks, rows[k], field, dir);
        }
        k := k + 1;
      }
      assert SelectedBelow(rows, nextId, userId, q) == Selected(rows, userId, q);
      SelectedMembers(rows, userId, q, tasks);
      count := |tasks|;
    }

    /** The create handler: validation, then one INSERT under the next identity value. */
    method CreateTask(userId: int, body: TaskBody, now: int) returns (r: Result<Task, TaskError>)
      requires Valid()
      modifies this
      ensures Valid()
      ensures r == NewTask(body, old(nextId), userId, now)
      ensures r.Ok? ==> old(nextId) !in old(rows) && rows == old(rows)[old(nextId) := r.value] && nextId == old(nextId) + 1
      ensures r.Err? ==> rows == old(rows) && nextId == old(nextId)
      ensures forall k :: k in old(rows) ==> k in rows && rows[k] == old(rows)[k]
    {
      r := NewTask(body, nextId, userId, now);
      if r.Ok? {
        rows := rows[nextId := r.value];
        nextId := nextId + 1;
      }
    }

    /**
     * The update handler: the ownership check, then the SET list and its
     * validation, then the UPDATE of that one row.
     */
    method UpdateTask(id: int, userId: int, body: TaskBody, now: int) returns (r: Result<Task, TaskError>)
      requires Valid()
      modifies this
      ensures Valid() && nextId == old(nextId)
      ensures GetTaskById(old(rows), id, userId).Err? ==> r == Err(TaskNotFound) && rows == old(rows)
      ensures GetTaskById(old(rows), id, userId).Ok? && UpdateRejection(body).Some? ==>
        r == Err(UpdateRejection(body).value) && rows == old(rows)
      ensures GetTaskById(old(rows), id, userId).Ok? && UpdateRejection(body).None? ==>
        r == Ok(Patched(old(rows)[id], body, now)) && rows == old(rows)[id := r.value]
    {
      var existing := GetTaskById(rows, id, userId);
      if existing.Err? {
        return Err(TaskNotFound);
      }
      var row := rows[id];
      var sets, rejection := BuildUpdate(row, body, now);
      if rejection.Some? {
        return Err(rejection.value);
      }
      var updated := AssignAll(row, sets);
      rows := rows[id := updated];
      r := Ok(updated);
    }

    /** The delete handler: DELETE of the matching rows, not found when none was affected. */
    method DeleteTask(id: int, userId: int) returns (r: Result<(), TaskError>)
      requires Valid()
      modifies this
      ensures Valid() && nextId == old(nextId)
      ensures GetTaskById(old(rows), id, userId).Ok? ==> r == Ok(()) && rows == old(rows) - {id}
      ensures GetTaskById(old(rows), id, userId).Err? ==> r == Err(TaskNotFound) && rows == old(rows)
    {
      var matched := set k | k in rows && rows[k].id == id && rows[k].userId == userId;
      assert forall k :: k in matched ==> k == id;
      if id in rows && rows[id].userId == userId {
        assert id in matched;
        assert matched == {id};
      } else {
        assert id !in matched;
        assert matched == {};
      }
      rows := rows - matched;
      var rowsAffected := |matched|;
      if rowsAffected == 0 {
        return Err(TaskNotFound);
      }
      r := Ok(());
    }
  }
}
