/**
 * The statistics handler: one aggregate over the caller's rows, with
 * per-status counts, the urgent count and the overdue count.
 */
module TaskStats {
  import opened Common
  import opened Js
  import opened TaskModel

  /** The stats object: non-negative counters, all zero for a caller without tasks. */
  datatype TaskStats = TaskStats(total: nat, pending: nat, inProgress: nat, completed: nat,
                                 cancelled: nat, urgent: nat, overdue: nat)

  /** The keys of the caller's rows: `WHERE userId = @userId`. */
  function Owned(rows: map<int, Task>, userId: int): set<int>
  {
    set k | k in rows && rows[k].userId == userId
  }

  /** The keys of the caller's rows that satisfy `p`. */
  function OwnedWhere(rows: map<int, Task>, userId: int, p: Task -> bool): (s: set<int>)
    ensures s <= Owned(rows, userId)
  {
    set k | k in rows && rows[k].userId == userId && p(rows[k])
  }

  /** `SUM(CASE WHEN p THEN 1 ELSE 0 END)`, read as a count. */
  function CountWhere(rows: map<int, Task>, userId: int, p: Task -> bool): (n: nat)
    ensures n <= |Owned(rows, userId)|
  {
    SubsetCard(OwnedWhere(rows, userId, p), Owned(rows, userId));
    |OwnedWhere(rows, userId, p)|
  }

  /** Past its due date and not completed; a NULL due date is never overdue, a cancelled task can be. */
  predicate IsOverdue(t: Task, now: int)
  {
    t.dueDate.Some? && t.dueDate.value < now && t.status != "completed"
  }

  predicate IsPending(t: Task) { t.status == "pending" }
  predicate IsInProgress(t: Task) { t.status == "in_progress" }
  predicate IsCompleted(t: Task) { t.status == "completed" }
  predicate IsCancelled(t: Task) { t.status == "cancelled" }
  predicate IsUrgent(t: Task) { t.priority == "urgent" }

  function Stats(rows: map<int, Task>, userId: int, now: int): (r: TaskStats)
    ensures r.pending <= r.total && r.inProgress <= r.total && r.completed <= r.total && r.cancelled <= r.total
    ensures r.urgent <= r.total && r.overdue <= r.total
    ensures r.total == 0 <==> forall k :: k in rows ==> rows[k].userId != userId
  {
    var owned := Owned(rows, userId);
    OwnedEmpty(rows, userId);
    TaskStats(
      |owned|,
      CountWhere(rows, userId, IsPending),
      CountWhere(rows, userId, IsInProgress),
      CountWhere(rows, userId, IsCompleted),
      CountWhere(rows, userId, IsCancelled),
      CountWhere(rows, userId, IsUrgent),
      CountWhere(rows, userId, t => IsOverdue(t, now)))
  }

  /** The caller owns no row exactly when no key is owned. */
  lemma OwnedEmpty(rows: map<int, Task>, userId: int)
    ensures |Owned(rows, userId)| == 0 <==> forall k :: k in rows ==> rows[k].userId != userId
  {
    if forall k :: k in rows ==> rows[k].userId != userId {
      NoMemberEmpty(Owned(rows, userId));
    } else {
      var k :| k in rows && rows[k].userId == userId;
      assert k in Owned(rows, userId);
    }
  }

  lemma NoMemberEmpty(s: set<int>)
    requires forall k :: k !in s
    ensures s == {}
  {
    var none: set<int> := {};
    assert forall k :: k in s <==> k in none;
    assert s == none;
  }

  lemma DisjointCard(a: set<int>, b: set<int>)
    requires a * b == {}
    ensures |a + b| == |a| + |b|
  {
  }

  lemma SubsetCard(a: set<int>, b: set<int>)
    requires a <= b
    ensures |a| <= |b|
  {
    assert b == a + (b - a);
    DisjointCard(a, b - a);
  }

  /** With every stored status one of the four values, the four status counts add up to the total. */
  lemma StatusCountsAddUp(rows: map<int, Task>, userId: int, now: int)
    requires forall k :: k in rows ==> rows[k].status in Statuses
    ensures var s := Stats(rows, userId, now);
      s.total == s.pending + s.inProgress + s.completed + s.cancelled
  {
    var p := OwnedWhere(rows, userId, IsPending);
    var i := OwnedWhere(rows, userId, IsInProgress);
    var c := OwnedWhere(rows, userId, IsCompleted);
    var x := OwnedWhere(rows, userId, IsCancelled);
    assert Owned(rows, userId) == p + i + c + x by {
      forall k | k in Owned(rows, userId) ensures k in p + i + c + x {
        assert rows[k].status in Statuses;
      }
    }
    NoMemberEmpty(p * i);
    DisjointCard(p, i);
    NoMemberEmpty((p + i) * c);
    DisjointCard(p + i, c);
    NoMemberEmpty((p + i + c) * x);
    DisjointCard(p + i + c, x);
  }

  /** Two tables that agree on the caller's rows give the caller the same statistics. */
  lemma StatsDependOnlyOnOwnRows(rows: map<int, Task>, rows': map<int, Task>, userId: int, now: int)
    requires Owned(rows, userId) == Owned(rows', userId)
    requires forall k :: k in Owned(rows, userId) ==> rows[k] == rows'[k]
    ensures Stats(rows, userId, now) == Stats(rows', userId, now)
  {
    SameOwnedWhere(rows, rows', userId, IsPending);
    SameOwnedWhere(rows, rows', userId, IsInProgress);
    SameOwnedWhere(rows, rows', userId, IsCompleted);
    SameOwnedWhere(rows, rows', userId, IsCancelled);
    SameOwnedWhere(rows, rows', userId, IsUrgent);
    SameOwnedWhere(rows, rows', userId, t => IsOverdue(t, now));
  }

  lemma SameOwnedWhere(rows: map<int, Task>, rows': map<int, Task>, userId: int, p: Task -> bool)
    requires Owned(rows, userId) == Owned(rows', userId)
    requires forall k :: k in Owned(rows, userId) ==> rows[k] == rows'[k]
    ensures OwnedWhere(rows, userId, p) == OwnedWhere(rows', userId, p)
  {
    var a, b := OwnedWhere(rows, userId, p), OwnedWhere(rows', userId, p);
    forall k ensures k in a <==> k in b {
      if k in a || k in b {
        assert k in Owned(rows, userId) && k in Owned(rows', userId);
        assert rows[k] == rows'[k];
      }
    }
    assert a == b;
  }

  /** Another user's insert, update or delete does not change the caller's statistics. */
  lemma OtherUsersDoNotCount(rows: map<int, Task>, k: int, t: Task, userId: int, now: int)
    requires t.userId != userId
    requires k in rows ==> rows[k].userId != userId
    ensures Stats(rows[k := t], userId, now) == Stats(rows, userId, now)
    ensures Stats(rows - {k}, userId, now) == Stats(rows, userId, now)
  {
    assert Owned(rows[k := t], userId) == Owned(rows, userId);
    StatsDependOnlyOnOwnRows(rows[k := t], rows, userId, now);
    assert Owned(rows - {k}, userId) == Owned(rows, userId);
    StatsDependOnlyOnOwnRows(rows - {k}, rows, userId, now);
  }

  /** Marking one of the caller's tasks completed removes it from the overdue count, and only it. */
  lemma CompletingClearsOverdue(rows: map<int, Task>, k: int, userId: int, now: int, at: int)
    requires k in rows && rows[k].userId == userId
    ensures var after := rows[k := Patched(rows[k], TaskBody(Absent, Absent, Given("completed"), Absent, Absent), at)];
      Stats(after, userId, now).overdue
        == Stats(rows, userId, now).overdue - (if IsOverdue(rows[k], now) then 1 else 0)
  {
    var after := rows[k := Patched(rows[k], TaskBody(Absent, Absent, Given("completed"), Absent, Absent), at)];
    var overdue := (t: Task) => IsOverdue(t, now);
    var before := OwnedWhere(rows, userId, overdue);
    assert !IsOverdue(after[k], now);
    assert OwnedWhere(after, userId, overdue) == before - {k};
    if k in before {
      assert before == (before - {k}) + {k};
      DisjointCard(before - {k}, {k});
    } else {
      assert before - {k} == before;
    }
  }

  /**
   * The aggregate row as the statement produces it: `COUNT(*)` is 0 over
   * no rows, but every `SUM(...)` over no rows is NULL.
   */
  datatype SqlStats = SqlStats(total: nat, pending: Option<nat>, inProgress: Option<nat>, completed: Option<nat>,
                               cancelled: Option<nat>, urgent: Option<nat>, overdue: Option<nat>)

  function SqlSum(rows: map<int, Task>, userId: int, p: Task -> bool): Option<nat>
  {
    if Owned(rows, userId) == {} then None else Some(CountWhere(rows, userId, p))
  }

  function StatsAsWritten(rows: map<int, Task>, userId: int, now: int): (r: SqlStats)
    ensures r.total == |Owned(rows, userId)|
    ensures r.total == 0 <==> r.pending.None?
    ensures r.total == 0 <==> r.inProgress.None?
    ensures r.total == 0 <==> r.completed.None?
    ensures r.total == 0 <==> r.cancelled.None?
    ensures r.total == 0 <==> r.urgent.None?
    ensures r.total == 0 <==> r.overdue.None?
    ensures r.pending.Some? ==> r.pending.value <= r.total
    ensures r.inProgress.Some? ==> r.inProgress.value <= r.total
    ensures r.completed.Some? ==> r.completed.value <= r.total
    ensures r.cancelled.Some? ==> r.cancelled.value <= r.total
    ensures r.urgent.Some? ==> r.urgent.value <= r.total
    ensures r.overdue.Some? ==> r.overdue.value <= r.total
  {
    SqlStats(
      |Owned(rows, userId)|,
      SqlSum(rows, userId, IsPending),
      SqlSum(rows, userId, IsInProgress),
      SqlSum(rows, userId, IsCompleted),
      SqlSum(rows, userId, IsCancelled),
      SqlSum(rows, userId, IsUrgent),
      SqlSum(rows, userId, t => IsOverdue(t, now)))
  }

  /** For a caller without tasks the statement yields NULL counters where zeros are meant. */
  lemma StatsAsWrittenNullWithoutTasks(rows: map<int, Task>, userId: int, now: int)
    requires forall k :: k in rows ==> rows[k].userId != userId
    ensures StatsAsWritten(rows, userId, now) == SqlStats(0, None, None, None, None, None, None)
    ensures Stats(rows, userId, now) == TaskStats(0, 0, 0, 0, 0, 0, 0)
  {
    NoMemberEmpty(Owned(rows, userId));
  }

  /** As soon as the caller has a task, the statement and the corrected counts agree. */
  lemma StatsAsWrittenAgreesWithTasks(rows: map<int, Task>, userId: int, now: int)
    requires exists k :: k in rows && rows[k].userId == userId
    ensures var s := Stats(rows, userId, now);
      StatsAsWritten(rows, userId, now)
        == SqlStats(s.total, Some(s.pending), Some(s.inProgress), Some(s.completed),
                    Some(s.cancelled), Some(s.urgent), Some(s.overdue))
  {
  }
}
