# Realtime task board: the board mutations and the client's sync state

This project models the core of a collaborative kanban board (`src/App.jsx`),
written in Dafny. A board holds three things:
- `tasks`: a map from task id to task.
- `columns`: a map from column id to a column with a title and an ordered `taskIds` list.
- `columnOrder`: a sequence of column ids.

Each client holds one board. It is `null` until the coordination server sends
the first full board (`boardState`). From then on:
- every local edit (drag and drop, adding, renaming or deleting a task or a
  column) computes a new board, installs it locally, and sends the entire
  board back with `updateBoard`;
- every `boardState` that arrives replaces the local board unconditionally.

The model has four modules:
- `Lists`: the list primitives the handlers use. These are `splice(i, 1)`
  (`RemoveAt`), `splice(i, 0, x)` (`InsertAt`), the two combined (`Move`) and
  `filter(y => y !== x)` (`Filter`), with their permutation and
  no-duplicate lemmas.
- `TaskBoard`: the data model and the board invariants.
  - `Valid` combines five invariants:
    - `columnOrder` lists exactly the column keys, once each.
    - Each stored column or task carries its own key as its id.
    - Every `taskIds` entry names a stored task.
    - No task id is listed twice, whether in one column or in two.
    - No stored task is orphaned.
  - Every handler is a function `Board -> Board`. Beside each function, its
    lemmas state what changes, what stays the same, and that `Valid` is
    preserved.
- `BoardClient`: the component's state as a class. `board: Option<Board>` is
  the React `board` state, and `outbox: seq<Board>` holds every payload
  emitted with `updateBoard`.
  - Each handler is a method. It copies and edits local values step by step,
    as the component does, then commits: it sets the board and appends it to
    the outbox.
  - Its `ensures` ties the new state to the `TaskBoard` function and
    promises that validity is preserved.
  - The `forEach` delete loop of `deleteColumn` is the method `RemoveTasks`.
- `Scenarios`: these worked cases:
  - `[a,b,c]` reordered from 0 to 2 gives `[b,c,a]`;
  - a task moved between columns;
  - add a column, add a task to it, then delete the column, which gives
    back the empty board;
  - the lost update of last-full-state-wins between two clients.

Parameters replace the outside world:
- `uuidv4()` becomes a fresh-id argument. "Fresh" is stated as "not yet a key".
- The two `new Date().toISOString()` readings of `addTask` are two opaque
  timestamps, so `createdAt == updatedAt` is not assumed. The single reading
  of `updateTaskTitle` is one timestamp.
- The output of react-beautiful-dnd is a `DropResult` value. Note that the
  dnd `type` is called `dragType` here.
- `socket.emit` is an append to `outbox`.

Where the code does something other than what a user would expect, the model follows the code:
- `deleteTask` removes the task from `tasks` even when the named column
  does not list it; removing a task the named column does not list would
  be expected to change nothing.
  `DeleteTaskWrongColumn` shows that this case leaves a dangling reference
  in the column that does list the task.
- Handlers given an unknown id do not fail softly in the code:
  - `addTask`, `deleteTask`, `deleteColumn` and the task-drag branches
    throw in the code.
  - `updateTaskTitle` and `updateColumnTitle` would store a malformed
    entry.
  The UI only passes ids it has just rendered, so the model states these
  conditions as `requires` clauses.
- `start === finish` in `onDragEnd` compares two objects read from the
  `columns` map. No code path stores one object under two keys, so this is
  modelled as equality of the two droppable ids.

## Model

| member | source | states |
|---|---|---|
| `Lists.RemoveAt` | src/App.jsx:123 | `splice(i, 1)`: the result is one shorter, entries before `i` stay, entries after shift down by one, and the multiset loses exactly `s[i]` |
| `Lists.InsertAt` | src/App.jsx:124 | `splice(i, 0, x)`: the result is one longer with `x` at `i`, entries before `i` stay, entries from `i` on shift up by one, and the multiset gains exactly `x` |
| `Lists.Filter` | src/App.jsx:205 | `filter(id => id !== x)`: a value is in the result iff it is in the input and differs from `x`; the multiset equals the input's with `x`'s count set to 0; without `x` the list comes back unchanged |
| `Lists.MovePermutes` | src/App.jsx:122-124 | removing the entry at `from` and inserting that same entry at `to` permutes the list, keeps the same members, and keeps a duplicate-free list duplicate-free |
| `Lists.MoveSameIndex` | src/App.jsx:122-124 | removing the entry at `i` and reinserting it at `i` gives back the original list |
| `Lists.FilterAppend` | src/App.jsx:205 | filtering a concatenation is the concatenation of the filtered parts, so the surviving entries keep their order |
| `Lists.FilterNoDups` | src/App.jsx:248 | filtering a duplicate-free list leaves it duplicate-free |
| `TaskBoard.ExactlyOneColumn` | src/App.jsx:307-310 | on a valid board, a stored task is listed by exactly one column and an unstored id by none |
| `TaskBoard.SumLengthsUpdate` | src/App.jsx:156-163 | replacing one column that the order names once changes the total `taskIds` count by the change in that column's length |
| `TaskBoard.MoveColumn` | src/App.jsx:121-125 | a column drop keeps `tasks` and `columns`, keeps the length of `columnOrder`, and puts `draggableId` at the destination index |
| `TaskBoard.MoveColumnSpec` | src/App.jsx:121-125 | when `draggableId` is the entry at the source index: the new `columnOrder` is a permutation of the old one, the board stays valid, and source index == destination index gives back the identical board |
| `TaskBoard.ReorderTask` | src/App.jsx:134-142 | a same-column drop keeps `tasks` and `columnOrder` |
| `TaskBoard.ReorderTaskSpec` | src/App.jsx:134-142 | for any dragged id, the only change to the board is that the column gets its `taskIds` with the source entry removed and the dragged id inserted at the destination; when the dragged id is the one at the source index, this is a permutation, and an unmoved drop gives back the same board |
| `TaskBoard.ReorderTaskValid` | src/App.jsx:134-142 | a same-column reorder of the entry at the source index keeps the board valid |
| `TaskBoard.TransferTask` | src/App.jsx:148-163 | a cross-column drop keeps `tasks` and `columnOrder` |
| `TaskBoard.TransferTaskSpec` | src/App.jsx:148-163 | the start column loses its source entry, `draggableId` is inserted into the finish column's original list at the destination, no other column changes, the total number of task references is unchanged, and `tasks` is unchanged |
| `TaskBoard.TransferTaskValid` | src/App.jsx:148-163 | moving the entry at the source index to another column keeps the board valid |
| `TaskBoard.TransferMembership` | src/App.jsx:148-163 | a board whose only change is one task id moving from one column to another is valid when the original board was |
| `TaskBoard.DragEnd` | src/App.jsx:117-165 | when there is no destination, the result is `None` (nothing changes, nothing is sent); when there is one, the new board keeps `tasks` |
| `TaskBoard.DragEndValid` | src/App.jsx:117-165 | every drop whose dragged id is the entry at its source index keeps a valid board valid, whichever of the three branches it takes |
| `TaskBoard.AddColumn` | src/App.jsx:168-175 | `tasks` is unchanged, `columnOrder` gains the new id at its end, and the column keys gain exactly the new id |
| `TaskBoard.AddColumnSpec` | src/App.jsx:168-175 | with a fresh id, `columns` gains exactly one "New Column" with empty `taskIds`, existing columns are unchanged, and the total number of task references is unchanged |
| `TaskBoard.AddColumnValid` | src/App.jsx:168-175 | adding a column with a fresh id keeps the board valid |
| `TaskBoard.AddTask` | src/App.jsx:180-196 | `columnOrder` and the column keys are unchanged, and the task keys gain exactly the new id |
| `TaskBoard.AddTaskSpec` | src/App.jsx:180-196 | with a fresh id, `tasks` gains exactly one entry (title "New Task", empty description, the two given timestamps), the new id is appended to exactly the target column, nothing else changes, and the task-reference total grows by one |
| `TaskBoard.AddTaskValid` | src/App.jsx:180-196 | adding a task with a fresh id keeps the board valid |
| `TaskBoard.DeleteTask` | src/App.jsx:201-211 | afterwards the id is absent from `tasks` and from the named column; `columnOrder` and the column keys are unchanged |
| `TaskBoard.DeleteTaskSpec` | src/App.jsx:201-211 | exactly that id leaves `tasks` (the other tasks keep their values), the named column's `taskIds` lose every occurrence of it, and the other columns are untouched |
| `TaskBoard.DeleteTaskValid` | src/App.jsx:201-211 | when the named column lists the task, or the id is not stored, the board stays valid |
| `TaskBoard.DeleteTaskWrongColumn` | src/App.jsx:201-211 | when a different column lists the task, the result has a `taskIds` entry that names no stored task |
| `TaskBoard.UpdateTaskTitle` | src/App.jsx:218-224 | `columns`, `columnOrder` and the task keys are unchanged, and the task has the new title |
| `TaskBoard.UpdateTaskTitleSpec` | src/App.jsx:218-224 | only that task changes, and only in `title` and `updatedAt` (`createdAt` is kept) |
| `TaskBoard.UpdateTaskTitleValid` | src/App.jsx:218-224 | renaming a stored task keeps the board valid |
| `TaskBoard.UpdateTaskTitleIdempotent` | src/App.jsx:218-224 | setting the same title twice equals setting it once at the later timestamp |
| `TaskBoard.UpdateColumnTitle` | src/App.jsx:229-234 | `tasks`, `columnOrder` and the column keys are unchanged, and the column has the new title |
| `TaskBoard.UpdateColumnTitleSpec` | src/App.jsx:229-234 | only that column's title changes, and the board stays valid |
| `TaskBoard.UpdateColumnTitleIdempotent` | src/App.jsx:229-234 | setting the same column title twice equals setting it once |
| `TaskBoard.ReplaceColumnValid` | src/App.jsx:138-141 | storing, under its own key, a column with the same member tasks (each listed once) as the column it replaces keeps a valid board valid |
| `TaskBoard.DeleteColumn` | src/App.jsx:240-255 | the column key is removed, and no task the column listed survives in `tasks` |
| `TaskBoard.DeleteColumnSpec` | src/App.jsx:240-255 | the id leaves `columnOrder` and the other column ids keep their order, exactly the column's tasks leave `tasks`, the remaining tasks and columns are unchanged, and the board stays valid |
| `BoardClient.RemoveTasks` | src/App.jsx:242-243 | the delete loop's result is the task map without exactly the listed ids |
| `BoardClient.Client.constructor` | src/App.jsx:103 | a new client holds no board and has sent nothing |
| `BoardClient.Client.ReceiveBoardState` | src/App.jsx:107 | the received board replaces the local one, whatever it was, and nothing is sent |
| `BoardClient.Client.Commit` | src/App.jsx:126-127 | `setBoard` then `emit`: the board becomes the new board and the outbox gains exactly that board |
| `BoardClient.Client.OnDragEnd` | src/App.jsx:115-166 | while loading, or for a drop without a destination, nothing changes and nothing is sent; otherwise the board becomes `DragEnd`'s result and exactly that board is sent; validity is preserved |
| `BoardClient.Client.AddColumn` | src/App.jsx:168-178 | no effect while loading; otherwise the board becomes `AddColumn` of the old board, it is sent, and validity is preserved |
| `BoardClient.Client.AddTask` | src/App.jsx:180-199 | no effect while loading; otherwise the board becomes `AddTask` of the old board, it is sent, and validity is preserved |
| `BoardClient.Client.DeleteTask` | src/App.jsx:201-216 | no effect while loading; otherwise the board becomes `DeleteTask` of the old board and is sent; validity is preserved when the column lists the task |
| `BoardClient.Client.UpdateTaskTitle` | src/App.jsx:218-227 | no effect while loading; otherwise the board becomes `UpdateTaskTitle` of the old board, it is sent, and validity is preserved |
| `BoardClient.Client.UpdateColumnTitle` | src/App.jsx:229-238 | no effect while loading; otherwise the board becomes `UpdateColumnTitle` of the old board, it is sent, and validity is preserved |
| `BoardClient.Client.DeleteColumn` | src/App.jsx:240-259 | no effect while loading; otherwise the board becomes `DeleteColumn` of the old board (its cascade computed by the loop), it is sent, and validity is preserved |
| `Scenarios.SameColumnReorderExample` | src/App.jsx:134-142 | `[a,b,c]` moved from 0 to 2 in one column gives `[b,c,a]` |
| `Scenarios.CrossColumnMoveExample` | src/App.jsx:148-163 | X `[a,b]` and an empty Y, moving from X 0 to Y 0, give X `[b]` and Y `[a]` |
| `Scenarios.AddThenDeleteExample` | src/App.jsx:168-259 | on the empty board: add a column (one "New Column" with no tasks), add a task to it (one task), then delete the column; the result is the empty board again |
| `Scenarios.LostUpdate` | src/App.jsx:107 | two clients editing the same board concurrently, with the server relaying the task addition before the rename: both end with the renamed board, and the added task is lost |

## Left out

- Rendering and styles (src/App.jsx:8-100, 261-357): presentation only.
- The socket.io connection, its subscription lifecycle and the `presence` counter (src/App.jsx:6, 104, 106-113): network I/O in a foreign library. `emit` is modelled only as an append to `outbox`.
- The coordination server and convergence between clients: the server's code is not part of this model. `Scenarios.LostUpdate` plays the server's relay order as an explicit sequence of `ReceiveBoardState` calls.
- `uuidv4()` and `new Date().toISOString()`: foreign calls and clock reads. They become parameters.
- Drag gesture capture by react-beautiful-dnd: its output is the `DropResult` argument.
- JavaScript arrays become `seq` values. `Array.from` followed by `splice` on the fresh copy is modelled as `RemoveAt`/`InsertAt` on values. The copy is never shared, so no aliasing is lost. Copying a map with spread and then using `delete` becomes map subtraction.
- React's asynchronous state update: a handler reads the `board` value captured at the last render. The model runs each handler against the client's current board. Two handlers that fire between two renders would both read the older board in the component.
- TaskBoard.DragEnd: requires the indices to be in range, and the task-drag columns to exist. JavaScript `splice` clamps an out-of-range index instead. The drag library only reports positions it rendered.
- TaskBoard.MoveColumnSpec: the permutation, validity and identity properties are proved only when `draggableId` is the entry at the source index. The code assumes this but never checks it (src/App.jsx:123-124, 136-137).
- TaskBoard.UpdateTaskTitle: requires the task to exist. The code would store an entry holding only `title` and `updatedAt` under an unknown id. The UI never passes one.
- TaskBoard.UpdateColumnTitle: requires the column to exist. The code would store an entry holding only `title` under an unknown id. The UI never passes one.
