# Kanban task board — a Dafny model

This project models the task board of a client-side to-do application. Tasks
(`Todo` records) live in one in-memory sequence. The board shows them in
three fixed columns: To Do, In Progress and Completed. Users add, edit and
delete tasks. They move tasks from column to column with a card's arrow
buttons, or reorder and re-column them by drag and drop.

The model follows the source component by component:

- `wrappers.dfy` (`Wrappers`) holds `Option`, for the optional fields.
- `todo_types.dfy` (`TodoTypes`) holds the record, the three-valued status, and `ColumnId`, which is a synonym of the status type.
- `reorder.dfy` (`Reorder`) holds the generic sequence operations the store updaters use: `arrayMove` as remove-then-insert, `filter`, and distinctness.
- `todo_store.dfy` (`TodoStore`) holds the store updaters. Each one is a pure function from the old task sequence to the new one, as in the `setTodos(items => …)` calls.
- `todo_card.dfy` (`TodoCard`) holds the card rules: move-button visibility, border colour, deadline badge, initials, and what each button asks the board to do.
- `todo_dialog.dfy` (`TodoDialog`) holds the form. A pure `FormState` model gives the open/initialData effect and the guarded submit. The `Dialog` class updates its five fields in place, and each method is proved equal to the pure model.
- `kanban_board.dfy` (`KanbanBoard`) holds the `Board` class. It keeps the four state fields (`todos`, `activeId`, `isDialogOpen`, `editingTodo`), and its methods are the event handlers. Each handler is proved to set `todos` to the matching store function of the old store and to keep ids unique. The module also has lemmas that combine form and store, and two walk-throughs (add, move, delete; add two, reorder).

Inputs from outside the program are parameters:

- The random id of a new task is `freshId`. A `requires` asks that it is not already in the store, because `Math.random` does not promise that.
- The clock is an integer `now`, in milliseconds.
- Each drag event is given as the dragged task's id plus an optional target: `OverTask(id)` for a card, or `OverColumn(status)` for a column's empty space.
- For the dnd-kit `arrayMove`, whose code is not part of this model, only its remove-then-insert contract is modelled. For a negative target index, the model ASSUMES that `-1` counts from the end, as `Array.prototype.splice` does (`Reorder.MoveTarget`). The only place this matters is a same-column drop onto a column's empty space: `findIndex` gives `-1` there, so the task goes to the end of the store and so to the end of its column (`TodoStore.DragEndOntoColumnSpace`).

Where the code's behaviour may be unexpected, the model follows the code:

- Closing the form resets only `isSubmitting`. The field values stay until the next open overwrites them.
- Submit does not check the title. The non-empty title comes from the input's HTML `required` attribute, and that is not modelled.
- A drag over another column moves the task to the hovered card's index with `arrayMove`. Over a column's empty space the task keeps its index and only its status changes.
- Saving the edit form unchanged is not a no-op when a description or assignee is absent: the form turns absent into `''` (`KanbanBoard.SaveUntouchedEditForm`).

## Model

| member | source | states |
|---|---|---|
| TodoTypes.StatusNameRoundTrip | src/types/todo.ts:1-13 | A column's droppable id, the status literal, reads back as exactly that status. So a column id can stand in for a status. |
| TodoTypes.ColumnsListEveryStatusOnce | src/components/kanban-board.tsx:178 | Each of the three statuses has exactly one of the three fixed columns. |
| Reorder.MoveTarget | src/components/kanban-board.tsx:122-123 | The final index `arrayMove` inserts at: `to` itself when `to >= 0`, and the last index for `to == -1` (the labelled negative-index assumption). |
| Reorder.ArrayMove | src/components/kanban-board.tsx:88 | `arrayMove` keeps the length and puts the moved element at the target index. |
| Reorder.ArrayMovePermutes | src/components/kanban-board.tsx:123 | `arrayMove` is a permutation: the multiset of elements is unchanged. |
| Reorder.ArrayMoveKeepsOthersInOrder | src/components/kanban-board.tsx:123 | The elements not moved keep their relative order. |
| Reorder.ArrayMoveAt | src/components/kanban-board.tsx:123 | Element-by-element reference definition of a move: elements between the two indices shift by one, the rest stay. |
| Reorder.ArrayMoveUndo | src/components/kanban-board.tsx:123 | Moving back from `to` to `from` undoes a move. |
| Reorder.ArrayMoveSelf | src/components/kanban-board.tsx:88 | A move onto its own index (dragOver over column space) changes nothing. |
| Reorder.ArrayMoveToEnd | src/components/kanban-board.tsx:122-123 | Under the assumption, `arrayMove(s, from, -1)` sends the element to the end. |
| Reorder.ArrayMoveKeepsDistinct | src/components/kanban-board.tsx:123 | A move of distinct values leaves them distinct. |
| Reorder.Filter | src/components/kanban-board.tsx:146 | `filter` keeps store order, and an element's count is kept if the predicate holds and is 0 otherwise. |
| Reorder.FilterKeepsAll | src/components/kanban-board.tsx:146 | A filter whose predicate holds everywhere returns its input. |
| Reorder.FilterOfPermutation | src/components/kanban-board.tsx:212 | Permuted inputs give filtered outputs with the same multiset. |
| Reorder.FilterArrayMoveDropped | src/components/kanban-board.tsx:212 | A filter that drops the moved element sees no change from `arrayMove`. |
| TodoStore.FindIndex | src/components/kanban-board.tsx:78-79 | `findIndex` returns -1 exactly when the id is absent. Otherwise it returns the first index holding the id. |
| TodoStore.FindIndexOfUnique | src/components/kanban-board.tsx:78 | With unique ids, `findIndex` of a task's id is that task's index. |
| TodoStore.Find | src/components/kanban-board.tsx:67-68 | `find` returns a task exactly when the id is present, and it is the first task in the store with that id. |
| TodoStore.NewTodo | src/components/kanban-board.tsx:129-135 | A new task has the given id and creation time, status `todo`, and exactly the submitted editable fields. |
| TodoStore.AddTodo | src/components/kanban-board.tsx:129-137 | Add appends one task at the end. Earlier tasks are unchanged and in the same order. The ids become the old ids plus the new one. |
| TodoStore.AddKeepsUnique | src/components/kanban-board.tsx:129-137 | Adding with an id not in the store keeps ids unique. |
| TodoStore.Merge | src/components/kanban-board.tsx:141 | `{...t, ...data}` takes the four editable fields from `data` and keeps id, status and createdAt. |
| TodoStore.EditTodo | src/components/kanban-board.tsx:139-143 | Edit keeps length, ids and positions, and every status and createdAt. Matching tasks get exactly the submitted fields. Every other task is untouched. |
| TodoStore.EditMissingIsNoOp | src/components/kanban-board.tsx:141 | Editing an id not in the store changes nothing. |
| TodoStore.DeleteTodo | src/components/kanban-board.tsx:145-147 | Delete keeps the other tasks in relative order, removes every task with the id, and keeps every other task's count. |
| TodoStore.DeleteRemovesId | src/components/kanban-board.tsx:146 | After a delete no task carries the id. |
| TodoStore.DeleteMissingIsNoOp | src/components/kanban-board.tsx:146 | Deleting an id not in the store changes nothing. |
| TodoStore.DeleteShrinks | src/components/kanban-board.tsx:146 | With unique ids, deleting a present id removes exactly one task. |
| TodoStore.SubsequenceKeepsUnique | src/components/kanban-board.tsx:146 | A filtered store keeps ids unique and holds no id the store lacked. |
| TodoStore.DeleteKeepsUnique | src/components/kanban-board.tsx:146 | Delete keeps ids unique. |
| TodoStore.Rank | src/components/kanban-board.tsx:178 | A status's rank is its column's index in the fixed column order. |
| TodoStore.Step | src/components/kanban-board.tsx:153-161 | The status step is total. Right increases the column index, capped at Completed. Left decreases it, floored at To Do. |
| TodoStore.StepUndo | src/components/kanban-board.tsx:153-161 | A move that changes the status is undone by the opposite move. |
| TodoStore.MoveTodo | src/components/kanban-board.tsx:149-166 | Move keeps length, order and ids. Only statuses can change. The matched task gets the stepped status, and every other task is untouched. |
| TodoStore.MoveMissingIsNoOp | src/components/kanban-board.tsx:150 | Moving an id not in the store changes nothing. |
| TodoStore.Column | src/components/kanban-board.tsx:212 | A column projection keeps store order and holds exactly the tasks of that status, with their counts. |
| TodoStore.InExactlyOneColumn | src/components/kanban-board.tsx:207-212 | A stored task is in column `c` exactly when its status is `c`. |
| TodoStore.ColumnsPartitionStore | src/components/kanban-board.tsx:207-212 | The three columns together hold the store's multiset, with no loss or duplication, and their lengths add up to the store's. |
| TodoStore.OverId | src/components/kanban-column.tsx:16 | A column's droppable id reads back as its status. |
| TodoStore.OverStatus | src/components/kanban-board.tsx:74 | The column a drag is over is the hovered card's task's status. Over a column it is the column's own status, unless some task's id equals the column id: then `find` picks that task and its status is used. |
| TodoStore.SetStatusAt | src/components/kanban-board.tsx:81-83 | Assigning into the copied array changes only that task's status. Ids and the other tasks stay. |
| TodoStore.DragOver | src/components/kanban-board.tsx:57-91 | DragOver keeps length and the multiset of ids. It is a no-op exactly when there is no target, the target is the dragged task itself, the dragged task is missing, or both are in the same column. |
| TodoStore.DragOverCrossing | src/components/kanban-board.tsx:76-89 | Across columns the result is a permutation of the store in which only the dragged task's record changed, to the target status. |
| TodoStore.DragOverColumns | src/components/kanban-board.tsx:76-89 | Across columns the task leaves its old column's multiset and joins the target's. |
| TodoStore.DragOverOtherColumn | src/components/kanban-board.tsx:76-89 | Across columns the third column renders exactly as before. |
| TodoStore.DragOverOntoCard | src/components/kanban-board.tsx:76-89 | Across columns over a card, the re-statused task lands at that card's index. |
| TodoStore.DragOverOntoColumnSpace | src/components/kanban-board.tsx:76-89 | Across columns over empty column space, only the task's status changes, in place. |
| TodoStore.DragOverKeepsUnique | src/components/kanban-board.tsx:57-91 | DragOver keeps ids unique. |
| TodoStore.DragEnd | src/components/kanban-board.tsx:93-127 | DragEnd keeps length and the multiset of ids. It is a no-op without a target, when the dragged task is missing, and when the card is dropped onto itself. |
| TodoStore.DragEndCrossing | src/components/kanban-board.tsx:109-116 | A drop on another column only sets the dragged task's status. Ids, order and other tasks are unchanged. |
| TodoStore.DragEndReorder | src/components/kanban-board.tsx:117-125 | A same-column drop elsewhere is a permutation with no status change. Every column keeps its multiset, and the other columns render exactly as before. |
| TodoStore.DragEndOntoCard | src/components/kanban-board.tsx:119-123 | A reorder onto a card puts the dragged task at that card's index. |
| TodoStore.DragEndOntoColumnSpace | src/components/kanban-board.tsx:119-123 | A reorder onto column space (`newIndex == -1`) sends the task to the end, under the labelled assumption. |
| TodoStore.DragEndKeepsUnique | src/components/kanban-board.tsx:93-127 | DragEnd keeps ids unique. |
| TodoStore.DeletedIdIsInert | src/components/kanban-board.tsx:139-166 | After a delete, edit, move, delete, dragOver and dragEnd of that id all leave the store unchanged. |
| TodoCard.BorderClass | src/components/todo-card.tsx:41-45 | The border class is total over statuses and follows column order: blue, yellow, green. |
| TodoCard.BorderClassDistinguishesStatus | src/components/todo-card.tsx:41-45 | Two statuses share a border class only if they are equal. |
| TodoCard.DeadlineBadge | src/components/todo-card.tsx:87-89 | The badge appears exactly when there is a deadline. It is destructive exactly when the deadline is strictly before `now`. |
| TodoCard.OverdueStaysOverdue | src/components/todo-card.tsx:89 | An overdue task stays overdue at any later time. |
| TodoCard.UpperChar | src/components/todo-card.tsx:83 | Upper-casing maps `a`-`z` onto `A`-`Z` and leaves every other character alone. |
| TodoCard.Initials | src/components/todo-card.tsx:80-83 | Initials are shown exactly for a non-empty assignee. They are the first two characters, or fewer, upper-cased, with no lower-case letter left. |
| TodoCard.InitialsIdempotent | src/components/todo-card.tsx:83 | The initials of the initials are the initials. |
| TodoCard.Buttons | src/components/todo-card.tsx:50-122 | Edit and delete are always shown. Left is shown exactly when the status is not todo, right exactly when it is not completed. |
| TodoCard.Press | src/components/todo-card.tsx:57-117 | Edit passes the card's own task. Delete and move pass its own id, and each move passes its own direction. |
| TodoCard.MoveShownIffEffective | src/components/todo-card.tsx:101-122 | A move button is shown exactly when its move would change the status. |
| TodoCard.ShownMoveChangesOnlyItsTask | src/components/todo-card.tsx:101-122 | Pressing a shown move button in a store with unique ids changes that card's status and nothing else. |
| TodoDialog.FieldsOf | src/components/todo-dialog.tsx:52-57 | The submitted object holds exactly title, description, assignee and deadline, never id, createdAt or status. |
| TodoDialog.Sync | src/components/todo-dialog.tsx:30-45 | Opening with a task copies title and deadline, and copies description and assignee with absent ones as `''`. Opening without a task blanks the fields and clears the deadline. Closing only resets `isSubmitting`. Opening never resets it. |
| TodoDialog.Submit | src/components/todo-dialog.tsx:48-59 | While submitting, a submit changes nothing, calls nothing and does not close. Otherwise it sets the flag, calls `onSubmit` once with the four fields, and requests close. |
| TodoDialog.SubmitDisabled | src/components/todo-dialog.tsx:122 | The button is disabled exactly when a submit would be ignored. |
| TodoDialog.Input | src/components/todo-dialog.tsx:73-115 | Typing sets exactly the field typed into. The other fields and the submit guard are unchanged. |
| TodoDialog.AtMostOneSubmitUntilClose | src/components/todo-dialog.tsx:42-51 | In any event sequence without a close, `onSubmit` is called at most once, and not at all if a submit is in flight. |
| TodoDialog.CloseRearms | src/components/todo-dialog.tsx:42-51 | After a close, reopening and submitting calls `onSubmit` exactly once, with the prefilled fields. |
| TodoDialog.Dialog.constructor | src/components/todo-dialog.tsx:23-27 | The form starts with empty fields, no deadline, and not submitting. |
| TodoDialog.Dialog.SyncWithProps | src/components/todo-dialog.tsx:30-45 | The effect updates the fields in place, as `Sync` says. |
| TodoDialog.Dialog.HandleInput | src/components/todo-dialog.tsx:73-115 | A change handler updates one field in place, as `Input` says. |
| TodoDialog.Dialog.HandleSubmit | src/components/todo-dialog.tsx:48-59 | The submit handler updates the guard and returns the `onSubmit` payload and the close request, as `Submit` says. |
| TodoDialog.Dialog.SubmitButtonDisabled | src/components/todo-dialog.tsx:122 | The button's disabled flag is the pure model's. |
| KanbanBoard.Board.constructor | src/components/kanban-board.tsx:37-40 | The board starts with an empty store, no active drag, the dialog closed, and nothing being edited. |
| KanbanBoard.Board.HandleDragStart | src/components/kanban-board.tsx:53-55 | Drag start records the dragged id. |
| KanbanBoard.Board.HandleDragOver | src/components/kanban-board.tsx:57-91 | Step by step, the handler gives the store `DragOver` describes, and keeps ids unique. |
| KanbanBoard.Board.HandleDragEnd | src/components/kanban-board.tsx:93-127 | The handler always clears `activeId`, gives the store `DragEnd` describes, and keeps ids unique. |
| KanbanBoard.Board.HandleAddTodo | src/components/kanban-board.tsx:129-137 | Given a fresh id, add appends as `AddTodo` says and keeps ids unique. |
| KanbanBoard.Board.HandleEditTodo | src/components/kanban-board.tsx:139-143 | With no task being edited, nothing changes. Otherwise the task with the remembered id is edited and `editingTodo` is cleared. |
| KanbanBoard.Board.HandleDeleteTodo | src/components/kanban-board.tsx:145-147 | Delete filters the store and keeps ids unique. |
| KanbanBoard.Board.HandleMoveTodo | src/components/kanban-board.tsx:149-166 | Move steps the matched task's status and keeps ids unique. |
| KanbanBoard.Board.OpenAddDialog | src/components/kanban-board.tsx:168-171 | Opening for add clears `editingTodo` and opens the dialog. |
| KanbanBoard.Board.OpenEditDialog | src/components/kanban-board.tsx:173-176 | Opening for edit remembers the task and opens the dialog. |
| KanbanBoard.Board.SetDialogOpen | src/components/kanban-board.tsx:234 | `onOpenChange` sets the open flag. |
| KanbanBoard.Board.Mode | src/components/kanban-board.tsx:237 | The mode is edit exactly when a task is being edited. |
| KanbanBoard.Board.HandleDialogSubmit | src/components/kanban-board.tsx:235 | A submit is an edit of the remembered task exactly when one is set, and an add otherwise. |
| KanbanBoard.Board.ColumnTodos | src/components/kanban-board.tsx:212 | A column renders, in store order, every task of its own status and no other task. |
| KanbanBoard.Board.ActiveTodo | src/components/kanban-board.tsx:185 | The overlay task exists exactly when `activeId` is a non-empty id in the store, and it is the first task with that id. |
| KanbanBoard.SaveUntouchedEditForm | src/components/kanban-board.tsx:139-143 | Saving the prefilled edit form unchanged leaves the store unchanged exactly when the task has a description and an assignee. |
| KanbanBoard.ScenarioAddMoveDelete | src/components/kanban-board.tsx:129-166 | Add, move right, delete: the column counts go 1/0/0, then 0/1/0, then 0/0/0. |
| KanbanBoard.ScenarioReorder | src/components/kanban-board.tsx:117-125 | Two tasks added, and the second dropped on the first: To Do reads second, first. |

## Left out

- The dnd-kit machinery is not modelled: sensors, the 5-pixel activation distance, `closestCorners` collision detection, `DragOverlay`, the drop animation, and `useSortable`/`CSS.Transform`. These are library behaviour. The target dnd-kit reports is the `over` parameter.
- The code of `arrayMove` is not modelled, only its remove-then-insert contract. For a negative index it is an assumption (`Reorder.MoveTarget`).
- Drag targets outside the store are excluded. `OverResolves` requires that an `OverTask` names a task in the store, because droppables are only the three columns and the rendered cards. That is what the unchecked `as TodoStatus` cast relies on.
- `Math.random` ids and `new Date()` become the parameters `freshId` and `now`. Freshness of `freshId` is a precondition of add.
- React scheduling is not modelled: batching, effect timing, and stale closures between `todos` and the `items` of an updater. Each handler runs to completion on the current state, one event at a time, with `items == todos`.
- Object spread is modelled with every key of the submitted object present, because the form always sends all four. A key missing from `data` would keep the old value, and the model does not cover that.
- Title validation is not modelled. The non-empty title comes from the HTML `required` attribute, not from `handleSubmit`.
- JSX, Tailwind classes other than the border colour, the dialog and popover components, icons, the dialog's mode-dependent texts, and date-fns formatting are presentation only.
- `src/components/kanban-column.tsx` and `src/app/page.tsx` are presentational. A column's count badge is the length of `KanbanBoard.Board.ColumnTodos`.
- The board and the form are two separate objects here. The props that connect them (`open`, `initialData`, `onSubmit`, `onOpenChange`) are composed at the level of their pure models, in `KanbanBoard.SaveUntouchedEditForm`.
- `new Date(initialData.deadline)` copies a `Date` object. The model copies its time value.
- TodoCard.UpperChar: upper-cases ASCII letters only. JavaScript's `toUpperCase` also maps other letters, and it can change length (ß to SS).
- TodoCard.Initials: takes the first two characters as Unicode scalar values, where JavaScript's `slice` takes UTF-16 code units. The two differ on characters outside the Basic Multilingual Plane.
