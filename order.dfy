/**
 * The ORDER BY part of the list request: the whitelisted sort column with
 * its fallback, the ASC/DESC normalisation, the order on column values and
 * the insertion that keeps a result sorted.
 */
module TaskOrder {
  import opened Common
  import opened Js
  import opened TaskModel

  datatype SortField = CreatedAt | UpdatedAt | DueDate | PriorityColumn | TitleColumn

  function ColumnName(f: SortField): string
  {
    match f
    case CreatedAt => "createdAt"
    case UpdatedAt => "updatedAt"
    case DueDate => "dueDate"
    case PriorityColumn => "priority"
    case TitleColumn => "title"
  }

  const SortColumns: set<string> := {"createdAt", "updatedAt", "dueDate", "priority", "title"}

  /** `validSortFields.includes(sortBy) ? sortBy : 'createdAt'`, with `sortBy` defaulting to `'createdAt'`. */
  function ParseSortField(sortBy: Option<string>): (f: SortField)
    ensures sortBy.Some? && sortBy.value in SortColumns ==> ColumnName(f) == sortBy.value
    ensures !(sortBy.Some? && sortBy.value in SortColumns) ==> f == CreatedAt
  {
    var name := if sortBy.Some? then sortBy.value else "createdAt";
    if name == "updatedAt" then UpdatedAt
    else if name == "dueDate" then DueDate
    else if name == "priority" then PriorityColumn
    else if name == "title" then TitleColumn
    else CreatedAt
  }

  datatype Direction = Asc | Desc

  /** `order.toUpperCase() === 'ASC' ? 'ASC' : 'DESC'`, with `order` defaulting to `'DESC'`. */
  function ParseOrder(order: Option<string>): (d: Direction)
    ensures d == Asc <==> order.Some? && ToUpper(order.value) == "ASC"
    ensures d == Asc <==> order.Some? && |order.value| == 3
                          && order.value[0] in "aA" && order.value[1] in "sS" + [LongS] && order.value[2] in "cC"
  {
    var o := if order.Some? then order.value else "DESC";
    UpperIsAsc(o);
    if ToUpper(o) == "ASC" then Asc else Desc
  }

  /** A column value as ORDER BY sees it; NULL sorts before every value. */
  datatype SortKey = NullKey | IntKey(n: int) | StrKey(s: string)

  function KeyOf(t: Task, f: SortField): SortKey
  {
    match f
    case CreatedAt => IntKey(t.createdAt)
    case UpdatedAt => IntKey(t.updatedAt)
    case DueDate => if t.dueDate.Some? then IntKey(t.dueDate.value) else NullKey
    case PriorityColumn => StrKey(t.priority)
    case TitleColumn => StrKey(t.title)
  }

  /** Lexicographic order on strings by character code. */
  predicate StrLe(a: string, b: string)
    decreases |a|
  {
    a == [] || (b != [] && (a[0] < b[0] || (a[0] == b[0] && StrLe(a[1..], b[1..]))))
  }

  lemma {:induction false} StrLeTotal(a: string, b: string)
    ensures StrLe(a, b) || StrLe(b, a)
    decreases |a|
  {
    if a != [] && b != [] && a[0] == b[0] {
      StrLeTotal(a[1..], b[1..]);
    }
  }

  lemma {:induction false} StrLeTransitive(a: string, b: string, c: string)
    requires StrLe(a, b) && StrLe(b, c)
    ensures StrLe(a, c)
    decreases |a|
  {
    if a != [] && a[0] == b[0] && b[0] == c[0] {
      StrLeTransitive(a[1..], b[1..], c[1..]);
    }
  }

  predicate KeyLe(a: SortKey, b: SortKey)
  {
    match (a, b)
    case (NullKey, _) => true
    case (_, NullKey) => false
    case (IntKey(x), IntKey(y)) => x <= y
    case (IntKey(_), StrKey(_)) => true
    case (StrKey(_), IntKey(_)) => false
    case (StrKey(x), StrKey(y)) => StrLe(x, y)
  }

  /** `a` may come before `b` in a result sorted by `f` in direction `d`. */
  predicate Before(a: Task, b: Task, f: SortField, d: Direction)
  {
    if d == Asc then KeyLe(KeyOf(a, f), KeyOf(b, f)) else KeyLe(KeyOf(b, f), KeyOf(a, f))
  }

  lemma BeforeTotal(a: Task, b: Task, f: SortField, d: Direction)
    ensures Before(a, b, f, d) || Before(b, a, f, d)
  {
    match (KeyOf(a, f), KeyOf(b, f))
    case (StrKey(x), StrKey(y)) => StrLeTotal(x, y);
    case _ =>
  }

  lemma BeforeTransitive(a: Task, b: Task, c: Task, f: SortField, d: Direction)
    requires Before(a, b, f, d) && Before(b, c, f, d)
    ensures Before(a, c, f, d)
  {
    match (KeyOf(a, f), KeyOf(b, f), KeyOf(c, f))
    case (StrKey(x), StrKey(y), StrKey(z)) =>
      if d == Asc { StrLeTransitive(x, y, z); } else { StrLeTransitive(z, y, x); }
    case _ =>
  }

  /** The result is ordered by column `f` in direction `d`. */
  predicate Sorted(s: seq<Task>, f: SortField, d: Direction)
  {
    forall i, j :: 0 <= i < j < |s| ==> Before(s[i], s[j], f, d)
  }

  /** Puts `t` after every leading element that may precede it, so equal keys keep their arrival order. */
  function Insert(s: seq<Task>, t: Task, f: SortField, d: Direction): (r: seq<Task>)
    ensures multiset(r) == multiset(s) + multiset{t}
  {
    if s == [] then [t]
    else if Before(s[0], t, f, d) then
      assert s == [s[0]] + s[1..];
      [s[0]] + Insert(s[1..], t, f, d)
    else [t] + s
  }

  /** A sorted sequence with an element in front that may precede all of it is still sorted. */
  lemma ConsSorted(x: Task, s: seq<Task>, f: SortField, d: Direction)
    requires Sorted(s, f, d)
    requires forall k :: 0 <= k < |s| ==> Before(x, s[k], f, d)
    ensures Sorted([x] + s, f, d)
  {
  }

  lemma TailSorted(s: seq<Task>, f: SortField, d: Direction)
    requires Sorted(s, f, d) && s != []
    ensures Sorted(s[1..], f, d)
    ensures forall k :: 1 <= k < |s| ==> Before(s[0], s[k], f, d)
  {
  }

  lemma {:induction false} InsertSorted(s: seq<Task>, t: Task, f: SortField, d: Direction)
    requires Sorted(s, f, d)
    ensures Sorted(Insert(s, t, f, d), f, d)
    decreases |s|
  {
    if s == [] {
    } else if !Before(s[0], t, f, d) {
      BeforeTotal(t, s[0], f, d);
      TailSorted(s, f, d);
      forall k | 0 <= k < |s| ensures Before(t, s[k], f, d) {
        if k > 0 {
          BeforeTransitive(t, s[0], s[k], f, d);
        }
      }
      ConsSorted(t, s, f, d);
    } else {
      TailSorted(s, f, d);
      var tail := s[1..];
      InsertSorted(tail, t, f, d);
      var rest := Insert(tail, t, f, d);
      forall k | 0 <= k < |rest| ensures Before(s[0], rest[k], f, d) {
        assert rest[k] in multiset(rest);
        if rest[k] != t {
          assert rest[k] in multiset(tail);
          var m :| 0 <= m < |tail| && tail[m] == rest[k];
          assert s[m + 1] == rest[k];
        }
      }
      ConsSorted(s[0], rest, f, d);
    }
  }
}
