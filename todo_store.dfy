/**
 * The board's task store (src/components/kanban-board.tsx): a sequence of tasks
 * and the pure updaters each event handler passes to `setTodos`.
 */
module TodoStore {
  import opened Wrappers
  import opened TodoTypes
  import opened Reorder

  /** The ids of the tasks, in store order. */
  function Ids(s: seq<Todo>): (ids: seq<string>)
    ensures |ids| == |s|
    ensures forall i :: 0 <= i < |s| ==> ids[i] == s[i].id
  {
    seq(|s|, i requires 0 <= i < |s| => s[i].id)
  }

  /** No two tasks share an id. */
  predicate UniqueIds(s: seq<Todo>)
  {
    Distinct(Ids(s))
  }

  /** `s.findIndex(t => t.id === id)`: the first index holding `id`, or -1. */
  function FindIndex(s: seq<Todo>, id: string): (r: int)
    ensures -1 <= r < |s|
    ensures r == -1 <==> id !in Ids(s)
    ensures r >= 0 ==> s[r].id == id && forall k :: 0 <= k < r ==> s[k].id != id
  {
    if s == [] then -1
    else if s[0].id == id then 0
    else
      var k := FindIndex(s[1..], id);
      assert Ids(s) == [s[0].id] + Ids(s[1..]);
      if k < 0 then -1 else k + 1
  }

  /** In a store with unique ids, the task at `i` is the one `findIndex` finds for its id. */
  lemma FindIndexOfUnique(s: seq<Todo>, i: nat)
    requires UniqueIds(s) && i < |s|
    ensures FindIndex(s, s[i].id) == i
  {
    assert Ids(s)[i] == s[i].id;
    assert Ids(s)[FindIndex(s, s[i].id)] == s[i].id;
  }

  /** `s.find(t => t.id === id)`. */
  function Find(s: seq<Todo>, id: string): (r: Option<Todo>)
    ensures r.Some? <==> id in Ids(s)
    ensures r.Some? ==> r.value in s && r.value.id == id
    ensures r.Some? ==> r.value == s[FindIndex(s, id)]
  {
    var k := FindIndex(s, id);
    if k < 0 then None else Some(s[k])
  }

  // ---------------------------------------------------------------- add

  /** The record `handleAddTodo` builds: fresh id, the given creation time, status `todo`. */
  function NewTodo(id: string, now: Time, data: TodoFields): (t: Todo)
    ensures t.id == id && t.createdAt == now && t.status == ToDo
    ensures Editable(t) == data
  {
    Todo(id, data.title, data.description, ToDo, data.deadline, data.assignee, now)
  }

  /** `[...current, newTodo]`: one new task at the end, everything before it untouched. */
  function AddTodo(s: seq<Todo>, data: TodoFields, id: string, now: Time): (r: seq<Todo>)
    ensures |r| == |s| + 1 && r[..|s|] == s
    ensures r[|s|] == NewTodo(id, now, data)
    ensures Ids(r) == Ids(s) + [id]
  {
    s + [NewTodo(id, now, data)]
  }

  /** An add with an id not yet in the store keeps ids unique. */
  lemma AddKeepsUnique(s: seq<Todo>, data: TodoFields, id: string, now: Time)
    requires UniqueIds(s) && id !in Ids(s)
    ensures UniqueIds(AddTodo(s, data, id, now))
  {
    var ids := Ids(AddTodo(s, data, id, now));
    forall i, j | 0 <= i < j < |ids| ensures ids[i] != ids[j] {
      if j == |s| {
        assert ids[i] == Ids(s)[i];
      } else {
        assert ids[i] == Ids(s)[i] && ids[j] == Ids(s)[j];
      }
    }
  }

  // ---------------------------------------------------------------- edit

  /** `{ ...t, ...data }`: the four editable fields from `data`, the rest from `t`. */
  function Merge(t: Todo, data: TodoFields): (r: Todo)
    ensures Editable(r) == data
    ensures r.id == t.id && r.status == t.status && r.createdAt == t.createdAt
  {
    t.(title := data.title, description := data.description,
       deadline := data.deadline, assignee := data.assignee)
  }

  /** `items.map(t => t.id === id ? { ...t, ...data } : t)`. */
  function EditTodo(s: seq<Todo>, id: string, data: TodoFields): (r: seq<Todo>)
    ensures |r| == |s| && Ids(r) == Ids(s)
    ensures forall i :: 0 <= i < |s| ==>
      r[i].status == s[i].status && r[i].createdAt == s[i].createdAt
    ensures forall i :: 0 <= i < |s| && s[i].id == id ==> Editable(r[i]) == data
    ensures forall i :: 0 <= i < |s| && s[i].id != id ==> r[i] == s[i]
  {
    seq(|s|, i requires 0 <= i < |s| => if s[i].id == id then Merge(s[i], data) else s[i])
  }

  /** Editing an id that is not in the store leaves it as it is. */
  lemma EditMissingIsNoOp(s: seq<Todo>, id: string, data: TodoFields)
    requires id !in Ids(s)
    ensures EditTodo(s, id, data) == s
  {
    assert forall i :: 0 <= i < |s| ==> Ids(s)[i] != id;
  }

  // ---------------------------------------------------------------- delete

  /** The filter predicate of `handleDeleteTodo`. */
  function KeepOthers(id: string): Todo -> bool
  {
    (t: Todo) => t.id != id
  }

  /** `items.filter(t => t.id !== id)`. */
  function DeleteTodo(s: seq<Todo>, id: string): (r: seq<Todo>)
    ensures IsSubsequence(r, s)
    ensures forall t :: multiset(r)[t] == if t.id == id then 0 else multiset(s)[t]
  {
    Filter(s, KeepOthers(id))
  }

  /** After a delete no task carries the id any more. */
  lemma DeleteRemovesId(s: seq<Todo>, id: string)
    ensures id !in Ids(DeleteTodo(s, id))
  {
    var r := DeleteTodo(s, id);
    forall i | 0 <= i < |r| ensures Ids(r)[i] != id {
      assert r[i] in multiset(r);
    }
  }

  /** Deleting an id that is not in the store leaves it as it is. */
  lemma DeleteMissingIsNoOp(s: seq<Todo>, id: string)
    requires id !in Ids(s)
    ensures DeleteTodo(s, id) == s
  {
    assert forall i :: 0 <= i < |s| ==> Ids(s)[i] != id;
    FilterKeepsAll(s, KeepOthers(id));
  }

  /** The tail of a store with unique ids has unique ids and lacks the head's id. */
  lemma UniqueTail(s: seq<Todo>)
    requires UniqueIds(s) && s != []
    ensures UniqueIds(s[1..]) && s[0].id !in Ids(s[1..])
  {
    forall i, j | 0 <= i < j < |s| - 1 ensures Ids(s[1..])[i] != Ids(s[1..])[j] {
      assert Ids(s)[i + 1] != Ids(s)[j + 1];
    }
    forall i | 0 <= i < |s| - 1 ensures Ids(s[1..])[i] != s[0].id {
      assert Ids(s)[i + 1] != Ids(s)[0];
    }
  }

  /** A delete removes one task from a store with unique ids, when the id is there. */
  lemma {:induction false} DeleteShrinks(s: seq<Todo>, id: string)
    requires UniqueIds(s) && id in Ids(s)
    ensures |DeleteTodo(s, id)| == |s| - 1
  {
    UniqueTail(s);
    if s[0].id == id {
      DeleteMissingIsNoOp(s[1..], id);
    } else {
      assert id in Ids(s[1..]) by {
        var k :| 0 <= k < |s| && Ids(s)[k] == id;
        assert Ids(s[1..])[k - 1] == id;
      }
      DeleteShrinks(s[1..], id);
    }
  }

  /** Filtering keeps unique ids unique. */
  lemma FilterKeepsUnique(s: seq<Todo>, keep: Todo -> bool)
    requires UniqueIds(s)
    ensures UniqueIds(Filter(s, keep))
  {
    SubsequenceKeepsUnique(Filter(s, keep), s);
  }

  lemma {:induction false} SubsequenceKeepsUnique(r: seq<Todo>, s: seq<Todo>)
    requires IsSubsequence(r, s) && UniqueIds(s)
    ensures UniqueIds(r)
    ensures forall i :: 0 <= i < |r| ==> r[i].id in Ids(s)
    decreases |s|
  {
    if r != [] {
      assert s != [];
      assert UniqueIds(s[1..]) by {
        forall i, j | 0 <= i < j < |s| - 1 ensures Ids(s[1..])[i] != Ids(s[1..])[j] {
          assert Ids(s)[i + 1] != Ids(s)[j + 1];
        }
      }
      forall i | 0 <= i < |s| - 1 ensures Ids(s[1..])[i] in Ids(s) {
        assert Ids(s)[i + 1] == Ids(s[1..])[i];
      }
      if r[0] == s[0] && IsSubsequence(r[1..], s[1..]) {
        SubsequenceKeepsUnique(r[1..], s[1..]);
        forall i | 1 <= i < |r| ensures r[i].id != r[0].id {
          assert r[1..][i - 1].id in Ids(s[1..]);
          var j :| 0 <= j < |s| - 1 && Ids(s[1..])[j] == r[i].id;
          assert Ids(s)[j + 1] != Ids(s)[0];
        }
        forall i, j | 0 <= i < j < |r| ensures Ids(r)[i] != Ids(r)[j] {
          if i > 0 {
            assert Ids(r[1..])[i - 1] != Ids(r[1..])[j - 1];
          }
        }
        forall i | 0 <= i < |r| ensures r[i].id in Ids(s) {
          if i > 0 {
            assert r[1..][i - 1].id in Ids(s[1..]);
          } else {
            assert Ids(s)[0] == r[0].id;
          }
        }
      } else {
        SubsequenceKeepsUnique(r, s[1..]);
      }
    }
  }

  /** A delete keeps ids unique. */
  lemma DeleteKeepsUnique(s: seq<Todo>, id: string)
    requires UniqueIds(s)
    ensures UniqueIds(DeleteTodo(s, id))
  {
    FilterKeepsUnique(s, KeepOthers(id));
  }

  // ---------------------------------------------------------------- move

  /** The two directions of the card's move buttons. */
  datatype Direction = Left | Right

  /** The column index of a status: To Do, In Progress, Completed. */
  function Rank(st: TodoStatus): (k: nat)
    ensures k < |Columns| && Columns[k] == st
  {
    match st
    case ToDo => 0
    case InProgress => 1
    case Completed => 2
  }

  /** The status a move gives, as `handleMoveTodo` computes it. */
  function Step(st: TodoStatus, dir: Direction): (r: TodoStatus)
    ensures Rank(r) == if dir == Right then (if Rank(st) < 2 then Rank(st) + 1 else 2)
                       else (if Rank(st) > 0 then Rank(st) - 1 else 0)
  {
    if dir == Right then
      if st == ToDo then InProgress else if st == InProgress then Completed else st
    else
      if st == Completed then InProgress else if st == InProgress then ToDo else st
  }

  /** A move that changes the status is undone by the move the other way. */
  lemma StepUndo(st: TodoStatus, dir: Direction)
    requires Step(st, dir) != st
    ensures Step(Step(st, dir), if dir == Right then Left else Right) == st
  {
  }

  /** `items.map(t => t.id !== id ? t : { ...t, status: newStatus })`. */
  function MoveTodo(s: seq<Todo>, id: string, dir: Direction): (r: seq<Todo>)
    ensures |r| == |s| && Ids(r) == Ids(s)
    ensures forall i :: 0 <= i < |s| ==> r[i] == s[i].(status := r[i].status)
    ensures forall i :: 0 <= i < |s| && s[i].id == id ==> r[i].status == Step(s[i].status, dir)
    ensures forall i :: 0 <= i < |s| && s[i].id != id ==> r[i] == s[i]
  {
    seq(|s|, i requires 0 <= i < |s| =>
      if s[i].id != id then s[i] else s[i].(status := Step(s[i].status, dir)))
  }

  /** Moving an id that is not in the store leaves it as it is. */
  lemma MoveMissingIsNoOp(s: seq<Todo>, id: string, dir: Direction)
    requires id !in Ids(s)
    ensures MoveTodo(s, id, dir) == s
  {
    assert forall i :: 0 <= i < |s| ==> Ids(s)[i] != id;
  }

  // ---------------------------------------------------------------- columns

  /** The filter predicate of column `c`. */
  function InColumn(c: ColumnId): Todo -> bool
  {
    (t: Todo) => t.status == c
  }

  /** `todos.filter(t => t.status === colId)`: what column `c` renders. */
  function Column(s: seq<Todo>, c: ColumnId): (r: seq<Todo>)
    ensures IsSubsequence(r, s)
    ensures forall t :: multiset(r)[t] == if t.status == c then multiset(s)[t] else 0
  {
    Filter(s, InColumn(c))
  }

  /** A task is in a column exactly when its status is that column's. */
  lemma InExactlyOneColumn(s: seq<Todo>, t: Todo, c: ColumnId)
    requires t in s
    ensures t in Column(s, c) <==> t.status == c
  {
    assert t in multiset(s);
  }

  /** The three columns together hold the store: nothing lost, nothing duplicated. */
  lemma ColumnsPartitionStore(s: seq<Todo>)
    ensures multiset(Column(s, ToDo)) + multiset(Column(s, InProgress)) + multiset(Column(s, Completed))
            == multiset(s)
    ensures |Column(s, ToDo)| + |Column(s, InProgress)| + |Column(s, Completed)| == |s|
  {
    var m := multiset(Column(s, ToDo)) + multiset(Column(s, InProgress)) + multiset(Column(s, Completed));
    assert forall t :: m[t] == multiset(s)[t];
    assert m == multiset(s);
  }

  // ---------------------------------------------------------------- drag

  /** What a drag is over: a task's card, or a column's empty space. */
  datatype Over = OverTask(taskId: string) | OverColumn(column: ColumnId)

  /** `over.id`: a card's droppable id is its task's id, a column's is its status name. */
  function OverId(o: Over): (id: string)
    ensures o.OverColumn? ==> ParseStatus(id) == Some(o.column)
  {
    match o
    case OverTask(id) => id
    case OverColumn(c) => StatusName(c)
  }

  /** The droppables are the columns and the cards of the tasks in the store. */
  predicate OverResolves(s: seq<Todo>, o: Over)
  {
    o.OverTask? ==> o.taskId in Ids(s)
  }

  /** `overTask ? overTask.status : (overId as TodoStatus)`: the column a drag is over. */
  function OverStatus(s: seq<Todo>, o: Over): (c: TodoStatus)
    requires OverResolves(s, o)
    ensures o.OverTask? ==> c == s[FindIndex(s, o.taskId)].status
    ensures o.OverColumn? && OverId(o) !in Ids(s) ==> c == o.column
    ensures OverId(o) in Ids(s) ==> c == s[FindIndex(s, OverId(o))].status
  {
    var k := FindIndex(s, OverId(o));
    if k >= 0 then s[k].status else o.column
  }

  /** `newItems[i] = { ...newItems[i], status: c }` on a copy of the store. */
  function SetStatusAt(s: seq<Todo>, i: nat, c: TodoStatus): (r: seq<Todo>)
    requires i < |s|
    ensures |r| == |s| && Ids(r) == Ids(s)
    ensures r[i] == s[i].(status := c)
    ensures forall k :: 0 <= k < |s| && k != i ==> r[k] == s[k]
  {
    s[i := s[i].(status := c)]
  }

  /** The dragged task is in the store and the drag is over another column than its own. */
  predicate CrossesColumn(s: seq<Todo>, active: string, o: Over)
    requires OverResolves(s, o)
  {
    FindIndex(s, active) >= 0 && s[FindIndex(s, active)].status != OverStatus(s, o)
  }

  /** The updater of `handleDragOver`, with its early returns. */
  function DragOver(s: seq<Todo>, active: string, over: Option<Over>): (r: seq<Todo>)
    requires over.Some? ==> OverResolves(s, over.value)
    ensures |r| == |s|
    ensures multiset(Ids(r)) == multiset(Ids(s))
    ensures r == s <==> over.None? || active == OverId(over.value) || !CrossesColumn(s, active, over.value)
  {
    if over.None? || active == OverId(over.value) || !CrossesColumn(s, active, over.value) then s
    else
      var o := over.value;
      var ai := FindIndex(s, active);
      var oi := FindIndex(s, OverId(o));
      var moved := SetStatusAt(s, ai, OverStatus(s, o));
      var r := ArrayMove(moved, ai, if oi >= 0 then oi else ai);
      IdsArrayMove(moved, ai, if oi >= 0 then oi else ai);
      ArrayMovePermutes(Ids(moved), ai, if oi >= 0 then oi else ai);
      ArrayMovePermutes(moved, ai, if oi >= 0 then oi else ai);
      SetStatusMultiset(s, ai, OverStatus(s, o));
      assert multiset(r)[moved[ai]] == multiset(s)[moved[ai]] + 1;
      r
  }

  /** The updater of `handleDragEnd`: finalise the status across columns, else reorder. */
  function DragEnd(s: seq<Todo>, active: string, over: Option<Over>): (r: seq<Todo>)
    requires over.Some? ==> OverResolves(s, over.value)
    ensures |r| == |s|
    ensures multiset(Ids(r)) == multiset(Ids(s))
    ensures over.None? || active !in Ids(s) ==> r == s
    ensures over.Some? && active == OverId(over.value) ==> r == s
  {
    if over.None? || FindIndex(s, active) < 0 then s
    else
      var o := over.value;
      var ai := FindIndex(s, active);
      var c := OverStatus(s, o);
      if s[ai].status != c then SetStatusAt(s, ai, c)
      else if active != OverId(o) then
        IdsArrayMove(s, ai, FindIndex(s, OverId(o)));
        ArrayMovePermutes(Ids(s), ai, FindIndex(s, OverId(o)));
        ArrayMove(s, ai, FindIndex(s, OverId(o)))
      else s
  }

  /** Moving tasks moves their ids the same way. */
  lemma IdsArrayMove(s: seq<Todo>, from: nat, to: int)
    requires from < |s| && -|s| <= to < |s|
    ensures Ids(ArrayMove(s, from, to)) == ArrayMove(Ids(s), from, to)
  {
    assert Ids(Remove(s, from)) == Remove(Ids(s), from);
    var k := MoveTarget(|s|, to);
    assert Ids(Insert(Remove(s, from), k, s[from])) == Insert(Ids(Remove(s, from)), k, s[from].id);
  }

  /** Setting one task's status swaps that one record in the store's multiset. */
  lemma SetStatusMultiset(s: seq<Todo>, i: nat, c: TodoStatus)
    requires i < |s|
    ensures multiset(SetStatusAt(s, i, c)) == multiset(s) - multiset{s[i]} + multiset{s[i].(status := c)}
  {
    var r := SetStatusAt(s, i, c);
    assert Remove(r, i) == Remove(s, i);
    MultisetRemove(r, i);
    MultisetRemove(s, i);
  }

  /** Moving a task keeps ids unique. */
  lemma ArrayMoveKeepsUnique(s: seq<Todo>, from: nat, to: int)
    requires from < |s| && -|s| <= to < |s| && UniqueIds(s)
    ensures UniqueIds(ArrayMove(s, from, to))
  {
    IdsArrayMove(s, from, to);
    ArrayMoveKeepsDistinct(Ids(s), from, to);
  }

  /**
   * A drag over another column permutes the store, and the dragged task's
   * record is the only one that changes, to the new status.
   */
  lemma DragOverCrossing(s: seq<Todo>, active: string, o: Over)
    requires OverResolves(s, o) && active != OverId(o) && CrossesColumn(s, active, o)
    ensures var t := s[FindIndex(s, active)];
            multiset(DragOver(s, active, Some(o))) == multiset(s) - multiset{t} + multiset{t.(status := OverStatus(s, o))}
  {
    var ai := FindIndex(s, active);
    var oi := FindIndex(s, OverId(o));
    var moved := SetStatusAt(s, ai, OverStatus(s, o));
    ArrayMovePermutes(moved, ai, if oi >= 0 then oi else ai);
    SetStatusMultiset(s, ai, OverStatus(s, o));
  }

  /** When one record in a store is swapped for one with another status, the two columns see it. */
  lemma ColumnsOfSwap(r: seq<Todo>, s: seq<Todo>, t: Todo, t': Todo)
    requires t in s && t.status != t'.status
    requires multiset(r) == multiset(s) - multiset{t} + multiset{t'}
    ensures multiset(Column(r, t.status)) == multiset(Column(s, t.status)) - multiset{t}
    ensures multiset(Column(r, t'.status)) == multiset(Column(s, t'.status)) + multiset{t'}
  {
    FilterSwapOut(r, s, t, t', InColumn(t.status));
    FilterSwapIn(r, s, t, t', InColumn(t'.status));
  }

  /** After a drag over another column the task has left its old column and joined the new one. */
  lemma DragOverColumns(s: seq<Todo>, active: string, o: Over)
    requires OverResolves(s, o) && active != OverId(o) && CrossesColumn(s, active, o)
    ensures var t := s[FindIndex(s, active)];
            var c := OverStatus(s, o);
            var r := DragOver(s, active, Some(o));
            && multiset(Column(r, t.status)) == multiset(Column(s, t.status)) - multiset{t}
            && multiset(Column(r, c)) == multiset(Column(s, c)) + multiset{t.(status := c)}
  {
    var t := s[FindIndex(s, active)];
    DragOverCrossing(s, active, o);
    ColumnsOfSwap(DragOver(s, active, Some(o)), s, t, t.(status := OverStatus(s, o)));
  }

  /** A drag over another column leaves the third column rendering exactly as before. */
  lemma DragOverOtherColumn(s: seq<Todo>, active: string, o: Over, c: ColumnId)
    requires OverResolves(s, o) && active != OverId(o) && CrossesColumn(s, active, o)
    requires c != OverStatus(s, o) && c != s[FindIndex(s, active)].status
    ensures Column(DragOver(s, active, Some(o)), c) == Column(s, c)
  {
    var ai := FindIndex(s, active);
    var oi := FindIndex(s, OverId(o));
    var t' := s[ai].(status := OverStatus(s, o));
    var moved := SetStatusAt(s, ai, t'.status);
    var to := if oi >= 0 then oi else ai;
    assert DragOver(s, active, Some(o)) == ArrayMove(moved, ai, to);
    assert moved == s[ai := t'];
    FilterArrayMoveDropped(moved, ai, to, InColumn(c));
    FilterUpdateDropped(s, ai, t', InColumn(c));
  }

  /** A drag over a card of another column puts the re-statused task at that card's index. */
  lemma DragOverOntoCard(s: seq<Todo>, active: string, id: string)
    requires id in Ids(s) && active != id && CrossesColumn(s, active, OverTask(id))
    ensures DragOver(s, active, Some(OverTask(id)))[FindIndex(s, id)]
            == s[FindIndex(s, active)].(status := OverStatus(s, OverTask(id)))
  {
  }

  /** A drag over another column's empty space only changes the task's status, in place. */
  lemma DragOverOntoColumnSpace(s: seq<Todo>, active: string, c: ColumnId)
    requires StatusName(c) !in Ids(s) && active != StatusName(c) && CrossesColumn(s, active, OverColumn(c))
    ensures DragOver(s, active, Some(OverColumn(c))) == SetStatusAt(s, FindIndex(s, active), c)
  {
    ArrayMoveSelf(SetStatusAt(s, FindIndex(s, active), c), FindIndex(s, active));
  }

  /** A drag over keeps ids unique. */
  lemma DragOverKeepsUnique(s: seq<Todo>, active: string, over: Option<Over>)
    requires over.Some? ==> OverResolves(s, over.value)
    requires UniqueIds(s)
    ensures UniqueIds(DragOver(s, active, over))
  {
    if !(over.None? || active == OverId(over.value) || !CrossesColumn(s, active, over.value)) {
      var ai := FindIndex(s, active);
      var oi := FindIndex(s, OverId(over.value));
      ArrayMoveKeepsUnique(SetStatusAt(s, ai, OverStatus(s, over.value)), ai, if oi >= 0 then oi else ai);
    }
  }

  /** A drop onto another column only sets the dragged task's status; order is unchanged. */
  lemma DragEndCrossing(s: seq<Todo>, active: string, o: Over)
    requires OverResolves(s, o) && CrossesColumn(s, active, o)
    ensures var ai := FindIndex(s, active);
            var r := DragEnd(s, active, Some(o));
            && Ids(r) == Ids(s)
            && r[ai] == s[ai].(status := OverStatus(s, o))
            && forall k :: 0 <= k < |s| && k != ai ==> r[k] == s[k]
  {
  }

  /**
   * A drop within the dragged task's own column, not onto itself: a reorder.
   * The store is a permutation of the old one, no status changes, the task's own
   * column keeps its tasks, and every other column renders exactly as before.
   */
  lemma DragEndReorder(s: seq<Todo>, active: string, o: Over)
    requires OverResolves(s, o) && active in Ids(s) && !CrossesColumn(s, active, o) && active != OverId(o)
    ensures var t := s[FindIndex(s, active)];
            var r := DragEnd(s, active, Some(o));
            && multiset(r) == multiset(s)
            && (forall c :: multiset(Column(r, c)) == multiset(Column(s, c)))
            && (forall c :: c != t.status ==> Column(r, c) == Column(s, c))
  {
    var ai := FindIndex(s, active);
    var oi := FindIndex(s, OverId(o));
    var r := DragEnd(s, active, Some(o));
    assert r == ArrayMove(s, ai, oi);
    ArrayMovePermutes(s, ai, oi);
    forall c ensures multiset(Column(r, c)) == multiset(Column(s, c)) {
      FilterOfPermutation(r, s, InColumn(c));
    }
    forall c | c != s[ai].status ensures Column(r, c) == Column(s, c) {
      FilterArrayMoveDropped(s, ai, oi, InColumn(c));
    }
  }

  /** A reorder drop onto a card puts the dragged task where that card was. */
  lemma DragEndOntoCard(s: seq<Todo>, active: string, id: string)
    requires id in Ids(s) && active in Ids(s) && !CrossesColumn(s, active, OverTask(id)) && active != id
    ensures DragEnd(s, active, Some(OverTask(id)))[FindIndex(s, id)] == s[FindIndex(s, active)]
  {
  }

  /**
   * A reorder drop onto a column's empty space: `findIndex` gives -1 and, under
   * the negative-index assumption on `arrayMove`, the task goes to the end of
   * the store, so to the end of its column.
   */
  lemma DragEndOntoColumnSpace(s: seq<Todo>, active: string, c: ColumnId)
    requires active in Ids(s) && StatusName(c) !in Ids(s)
    requires !CrossesColumn(s, active, OverColumn(c)) && active != StatusName(c)
    ensures var ai := FindIndex(s, active);
            DragEnd(s, active, Some(OverColumn(c))) == Remove(s, ai) + [s[ai]]
  {
    ArrayMoveToEnd(s, FindIndex(s, active));
  }

  /** A drop keeps ids unique. */
  lemma DragEndKeepsUnique(s: seq<Todo>, active: string, over: Option<Over>)
    requires over.Some? ==> OverResolves(s, over.value)
    requires UniqueIds(s)
    ensures UniqueIds(DragEnd(s, active, over))
  {
    if over.Some? && FindIndex(s, active) >= 0 {
      var o := over.value;
      var ai := FindIndex(s, active);
      if s[ai].status == OverStatus(s, o) && active != OverId(o) {
        ArrayMoveKeepsUnique(s, ai, FindIndex(s, OverId(o)));
      }
    }
  }

  /** Once deleted, an id is inert: edit, move, delete and drag of it change nothing. */
  lemma DeletedIdIsInert(s: seq<Todo>, id: string, data: TodoFields, dir: Direction, over: Option<Over>)
    requires over.Some? ==> OverResolves(DeleteTodo(s, id), over.value)
    ensures var r := DeleteTodo(s, id);
            && EditTodo(r, id, data) == r
            && MoveTodo(r, id, dir) == r
            && DeleteTodo(r, id) == r
            && DragOver(r, id, over) == r
            && DragEnd(r, id, over) == r
  {
    var r := DeleteTodo(s, id);
    DeleteRemovesId(s, id);
    EditMissingIsNoOp(r, id, data);
    MoveMissingIsNoOp(r, id, dir);
    DeleteMissingIsNoOp(r, id);
  }
}
