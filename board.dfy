/** The shared kanban board and the mutations a client applies to it
    (src/App.jsx, the handlers of the `App` component), each taken out of the
    component as a transformation from the current board to the next one. */
module TaskBoard {
  import opened Wrappers
  import opened Lists

  /** Column and task identifiers: opaque strings from `uuidv4()`. */
  type Id = string
  /** `new Date().toISOString()`, kept opaque. */
  type Timestamp = string

  datatype Task = Task(id: Id, title: string, description: string, createdAt: Timestamp, updatedAt: Timestamp)

  datatype Column = Column(id: Id, title: string, taskIds: seq<Id>)

  datatype Board = Board(tasks: map<Id, Task>, columns: map<Id, Column>, columnOrder: seq<Id>)

  const NewColumnTitle: string := "New Column"
  const NewTaskTitle: string := "New Task"

  /** The `type` of a react-beautiful-dnd drop that moves a whole column. */
  const ColumnDrag: string := "column"

  // ---------------------------------------------------------------------
  // Board invariants
  // ---------------------------------------------------------------------

  /** `columnOrder` lists exactly the keys of `columns`, each once. */
  ghost predicate OrderMatchesColumns(b: Board) {
    NoDups(b.columnOrder) && forall c :: c in b.columnOrder <==> c in b.columns
  }

  /** Every stored column and task carries the key it is stored under. */
  ghost predicate KeysMatchIds(b: Board) {
    (forall c :: c in b.columns ==> b.columns[c].id == c) &&
    (forall t :: t in b.tasks ==> b.tasks[t].id == t)
  }

  /** Every `taskIds` entry names a stored task. */
  ghost predicate RefsResolve(b: Board) {
    forall c, t :: c in b.columns && t in b.columns[c].taskIds ==> t in b.tasks
  }

  /** No task id is listed twice, neither within one column nor in two columns. */
  ghost predicate RefsUnique(b: Board) {
    (forall c :: c in b.columns ==> NoDups(b.columns[c].taskIds)) &&
    (forall c1, c2, t ::
       (c1 in b.columns && c2 in b.columns && t in b.columns[c1].taskIds && t in b.columns[c2].taskIds) ==> c1 == c2)
  }

  /** Every stored task is listed by some column. */
  ghost predicate NoOrphans(b: Board) {
    forall t :: t in b.tasks ==> exists c :: c in b.columns && t in b.columns[c].taskIds
  }

  ghost predicate Valid(b: Board) {
    OrderMatchesColumns(b) && KeysMatchIds(b) && RefsResolve(b) && RefsUnique(b) && NoOrphans(b)
  }

  /** The columns whose `taskIds` list `t`. */
  function Owners(b: Board, t: Id): set<Id> {
    set c | c in b.columns && t in b.columns[c].taskIds
  }

  /** On a valid board a stored task belongs to exactly one column, and an
      id that is not stored belongs to none. */
  lemma ExactlyOneColumn(b: Board, t: Id)
    requires Valid(b)
    ensures t in b.tasks ==> exists c :: c in b.columns && Owners(b, t) == {c}
    ensures t !in b.tasks ==> Owners(b, t) == {}
  {
    if t in b.tasks {
      var c :| c in b.columns && t in b.columns[c].taskIds;
      assert Owners(b, t) == {c};
    }
  }

  /** The number of `taskIds` entries of the columns named by `order`. */
  function SumLengths(columns: map<Id, Column>, order: seq<Id>): nat {
    if order == [] then 0
    else (if order[0] in columns then |columns[order[0]].taskIds| else 0) + SumLengths(columns, order[1..])
  }

  /** The total number of task references on the board. */
  function TotalTaskRefs(b: Board): nat {
    SumLengths(b.columns, b.columnOrder)
  }

  lemma {:induction false} SumLengthsUnchanged(columns: map<Id, Column>, order: seq<Id>, k: Id, col: Column)
    requires k !in order
    ensures SumLengths(columns[k := col], order) == SumLengths(columns, order)
  {
    if order != [] {
      SumLengthsUnchanged(columns, order[1..], k, col);
    }
  }

  /** Replacing one column that `order` names once changes the total by the
      change in that column's length. */
  lemma {:induction false} SumLengthsUpdate(columns: map<Id, Column>, order: seq<Id>, k: Id, col: Column)
    requires NoDups(order) && k in order && k in columns
    ensures SumLengths(columns[k := col], order) == SumLengths(columns, order) - |columns[k].taskIds| + |col.taskIds|
  {
    assert NoDups(order[1..]) by {
      forall i, j | 0 <= i < j < |order[1..]| ensures order[1..][i] != order[1..][j] {
        assert order[1..][i] == order[i + 1] && order[1..][j] == order[j + 1];
      }
    }
    if order[0] == k {
      assert k !in order[1..] by {
        forall j | 0 <= j < |order[1..]| ensures order[1..][j] != k {
          assert order[1..][j] == order[j + 1];
        }
      }
      SumLengthsUnchanged(columns, order[1..], k, col);
    } else {
      assert k in order[1..] by {
        var j :| 0 <= j < |order| && order[j] == k;
        assert order[1..][j - 1] == k;
      }
      SumLengthsUpdate(columns, order[1..], k, col);
    }
  }

  // ---------------------------------------------------------------------
  // Drag and drop (onDragEnd)
  // ---------------------------------------------------------------------

  /** A drop position: the droppable (a column id, or the column strip) and an index in it. */
  datatype Location = Location(droppableId: Id, index: nat)

  /** What react-beautiful-dnd hands to `onDragEnd`; no destination means the
      item was dropped outside every droppable. */
  datatype DropResult = DropResult(dragType: string, draggableId: Id, source: Location, destination: Option<Location>)

  /** The indices and column ids of a drop lie within the board (the drag
      library only reports positions it displayed). */
  predicate DropFits(b: Board, d: DropResult) {
    d.destination.Some? ==>
      var dest := d.destination.value;
      if d.dragType == ColumnDrag then
        d.source.index < |b.columnOrder| && dest.index < |b.columnOrder|
      else
        d.source.droppableId in b.columns && dest.droppableId in b.columns &&
        d.source.index < |b.columns[d.source.droppableId].taskIds| &&
        if d.source.droppableId == dest.droppableId then dest.index < |b.columns[dest.droppableId].taskIds|
        else dest.index <= |b.columns[dest.droppableId].taskIds|
  }

  /** The dragged id is the one at the source index, as the drag library guarantees. */
  predicate DragConsistent(b: Board, d: DropResult) {
    DropFits(b, d) &&
    (d.destination.Some? ==>
      if d.dragType == ColumnDrag then d.draggableId == b.columnOrder[d.source.index]
      else d.draggableId == b.columns[d.source.droppableId].taskIds[d.source.index])
  }

  /** The column branch: remove the entry at `from` from `columnOrder`, then
      insert `draggableId` at `to` in the shortened list. */
  function MoveColumn(b: Board, from: nat, to: nat, draggableId: Id): (r: Board)
    requires from < |b.columnOrder| && to < |b.columnOrder|
    ensures r.tasks == b.tasks && r.columns == b.columns
    ensures |r.columnOrder| == |b.columnOrder| && r.columnOrder[to] == draggableId
  {
    b.(columnOrder := Move(b.columnOrder, from, to, draggableId))
  }

  /** The same-column branch: the column's `taskIds` get the same remove and
      insert; the column is stored back under its own id. */
  function ReorderTask(b: Board, colId: Id, from: nat, to: nat, draggableId: Id): (r: Board)
    requires colId in b.columns
    requires from < |b.columns[colId].taskIds| && to < |b.columns[colId].taskIds|
    ensures r.tasks == b.tasks && r.columnOrder == b.columnOrder
  {
    var start := b.columns[colId];
    var newColumn := start.(taskIds := Move(start.taskIds, from, to, draggableId));
    b.(columns := b.columns[newColumn.id := newColumn])
  }

  /** The cross-column branch: the entry at `from` leaves the start column and
      `draggableId` is inserted at `to` in the finish column's original list. */
  function TransferTask(b: Board, startId: Id, from: nat, finishId: Id, to: nat, draggableId: Id): (r: Board)
    requires startId in b.columns && finishId in b.columns
    requires from < |b.columns[startId].taskIds| && to <= |b.columns[finishId].taskIds|
    ensures r.tasks == b.tasks && r.columnOrder == b.columnOrder
  {
    var start := b.columns[startId];
    var finish := b.columns[finishId];
    var newStart := start.(taskIds := RemoveAt(start.taskIds, from));
    var newFinish := finish.(taskIds := InsertAt(finish.taskIds, to, draggableId));
    b.(columns := b.columns[newStart.id := newStart][newFinish.id := newFinish])
  }

  /** `onDragEnd`: `None` when the board is left alone and nothing is sent. */
  function DragEnd(b: Board, d: DropResult): (r: Option<Board>)
    requires DropFits(b, d)
    ensures r.None? <==> d.destination.None?
    ensures r.Some? ==> r.value.tasks == b.tasks
  {
    match d.destination
    case None => None
    case Some(dest) =>
      if d.dragType == ColumnDrag then
        Some(MoveColumn(b, d.source.index, dest.index, d.draggableId))
      else if d.source.droppableId == dest.droppableId then
        Some(ReorderTask(b, d.source.droppableId, d.source.index, dest.index, d.draggableId))
      else
        Some(TransferTask(b, d.source.droppableId, d.source.index, dest.droppableId, dest.index, d.draggableId))
  }

  // ---------------------------------------------------------------------
  // The other handlers
  // ---------------------------------------------------------------------

  /** `addColumn` with `newColId` standing for `uuidv4()`. */
  function AddColumn(b: Board, newColId: Id): (r: Board)
    ensures r.tasks == b.tasks
    ensures r.columnOrder == b.columnOrder + [newColId]
    ensures r.columns.Keys == b.columns.Keys + {newColId}
  {
    b.(columns := b.columns[newColId := Column(newColId, NewColumnTitle, [])],
       columnOrder := b.columnOrder + [newColId])
  }

  /** `addTask` with `newTaskId` standing for `uuidv4()` and the two
      timestamps for the two `new Date()` calls. */
  function AddTask(b: Board, colId: Id, newTaskId: Id, createdAt: Timestamp, updatedAt: Timestamp): (r: Board)
    requires colId in b.columns
    ensures r.columnOrder == b.columnOrder
    ensures r.tasks.Keys == b.tasks.Keys + {newTaskId}
    ensures r.columns.Keys == b.columns.Keys
  {
    var newTask := Task(newTaskId, NewTaskTitle, "", createdAt, updatedAt);
    var column := b.columns[colId];
    var newColumn := column.(taskIds := column.taskIds + [newTaskId]);
    b.(tasks := b.tasks[newTaskId := newTask], columns := b.columns[colId := newColumn])
  }

  /** `deleteTask`: the task leaves `tasks` whatever column it is in, and
      every occurrence of its id leaves the named column. */
  function DeleteTask(b: Board, colId: Id, taskId: Id): (r: Board)
    requires colId in b.columns
    ensures r.columnOrder == b.columnOrder && r.columns.Keys == b.columns.Keys
    ensures taskId !in r.tasks && taskId !in r.columns[colId].taskIds
  {
    var column := b.columns[colId];
    var newColumn := column.(taskIds := Filter(column.taskIds, taskId));
    b.(tasks := b.tasks - {taskId}, columns := b.columns[colId := newColumn])
  }

  /** `updateTaskTitle`: new title, `updatedAt` refreshed to `now`. */
  function UpdateTaskTitle(b: Board, taskId: Id, title: string, now: Timestamp): (r: Board)
    requires taskId in b.tasks
    ensures r.columns == b.columns && r.columnOrder == b.columnOrder
    ensures r.tasks.Keys == b.tasks.Keys && r.tasks[taskId].title == title
  {
    var task := b.tasks[taskId];
    b.(tasks := b.tasks[taskId := task.(title := title, updatedAt := now)])
  }

  /** `updateColumnTitle`: new title, nothing else. */
  function UpdateColumnTitle(b: Board, colId: Id, title: string): (r: Board)
    requires colId in b.columns
    ensures r.tasks == b.tasks && r.columnOrder == b.columnOrder
    ensures r.columns.Keys == b.columns.Keys && r.columns[colId].title == title
  {
    var col := b.columns[colId];
    b.(columns := b.columns[colId := col.(title := title)])
  }

  /** The task ids a column lists, as a set. */
  function TaskIdSet(ids: seq<Id>): set<Id>
  {
    set t | t in ids
  }

  /** `deleteColumn`: the column and every task it lists go, and the column
      id leaves `columnOrder`. */
  function DeleteColumn(b: Board, colId: Id): (r: Board)
    requires colId in b.columns
    ensures r.columns.Keys == b.columns.Keys - {colId}
    ensures forall t :: t in b.columns[colId].taskIds ==> t !in r.tasks
  {
    var column := b.columns[colId];
    b.(tasks := b.tasks - TaskIdSet(column.taskIds),
       columns := b.columns - {colId},
       columnOrder := Filter(b.columnOrder, colId))
  }

  // ---------------------------------------------------------------------
  // Properties
  // ---------------------------------------------------------------------

  /** Storing, under its own key, a column that lists the same tasks as the
      one it replaces, each once, keeps the board valid. */
  lemma ReplaceColumnValid(b: Board, k: Id, nc: Column)
    requires Valid(b) && k in b.columns && nc.id == k && NoDups(nc.taskIds)
    requires forall t :: t in nc.taskIds <==> t in b.columns[k].taskIds
    ensures Valid(b.(columns := b.columns[k := nc]))
  {
    ReplaceColumnRefs(b, k, nc);
    ReplaceColumnUnique(b, k, nc);
    ReplaceColumnNoOrphans(b, k, nc);
  }

  lemma ReplaceColumnRefs(b: Board, k: Id, nc: Column)
    requires RefsResolve(b) && k in b.columns
    requires forall t :: t in nc.taskIds <==> t in b.columns[k].taskIds
    ensures RefsResolve(b.(columns := b.columns[k := nc]))
  {
    var r := b.(columns := b.columns[k := nc]);
    forall c, t | c in r.columns && t in r.columns[c].taskIds ensures t in r.tasks {
      assert t in b.columns[c].taskIds;
    }
  }

  lemma ReplaceColumnUnique(b: Board, k: Id, nc: Column)
    requires RefsUnique(b) && k in b.columns && NoDups(nc.taskIds)
    requires forall t :: t in nc.taskIds <==> t in b.columns[k].taskIds
    ensures RefsUnique(b.(columns := b.columns[k := nc]))
  {
    var r := b.(columns := b.columns[k := nc]);
    forall c1, c2, t | c1 in r.columns && c2 in r.columns && t in r.columns[c1].taskIds && t in r.columns[c2].taskIds
      ensures c1 == c2
    {
      assert t in b.columns[c1].taskIds && t in b.columns[c2].taskIds;
    }
  }

  lemma ReplaceColumnNoOrphans(b: Board, k: Id, nc: Column)
    requires NoOrphans(b) && k in b.columns
    requires forall t :: t in nc.taskIds <==> t in b.columns[k].taskIds
    ensures NoOrphans(b.(columns := b.columns[k := nc]))
  {
    var r := b.(columns := b.columns[k := nc]);
    forall t | t in r.tasks ensures exists c :: c in r.columns && t in r.columns[c].taskIds {
      var c :| c in b.columns && t in b.columns[c].taskIds;
      assert c in r.columns && t in r.columns[c].taskIds;
    }
  }

  /** Column reorder: the dragged column moves to `to`; when the dragged id
      is the one at `from` the order is permuted, the board stays valid, and
      dropping it where it was gives back the same board. */
  lemma MoveColumnSpec(b: Board, from: nat, to: nat)
    requires Valid(b)
    requires from < |b.columnOrder| && to < |b.columnOrder|
    ensures var r := MoveColumn(b, from, to, b.columnOrder[from]);
      multiset(r.columnOrder) == multiset(b.columnOrder) &&
      Valid(r) &&
      (from == to ==> r == b)
  {
    var r := MoveColumn(b, from, to, b.columnOrder[from]);
    MovePermutes(b.columnOrder, from, to);
    forall c ensures c in r.columnOrder <==> c in b.columnOrder {
      assert c in r.columnOrder <==> c in multiset(r.columnOrder);
      assert c in b.columnOrder <==> c in multiset(b.columnOrder);
    }
    if from == to {
      MoveSameIndex(b.columnOrder, from);
    }
  }

  /** Same-column reorder: whatever id the drop names, the only change is
      that column's `taskIds` becoming `Move(ids, from, to, d)`; when the
      dragged id is the one at `from` this is a permutation of the old list,
      and dropping the task where it was gives back the same board. */
  lemma ReorderTaskSpec(b: Board, colId: Id, from: nat, to: nat, d: Id)
    requires colId in b.columns && b.columns[colId].id == colId
    requires from < |b.columns[colId].taskIds| && to < |b.columns[colId].taskIds|
    ensures var ids := b.columns[colId].taskIds;
      var r := ReorderTask(b, colId, from, to, d);
      r.columns == b.columns[colId := b.columns[colId].(taskIds := Move(ids, from, to, d))] &&
      r.tasks == b.tasks && r.columnOrder == b.columnOrder &&
      (d == ids[from] ==> multiset(r.columns[colId].taskIds) == multiset(ids) && (from == to ==> r == b))
  {
    var ids := b.columns[colId].taskIds;
    MovePermutes(ids, from, to);
    if from == to {
      MoveSameIndex(ids, from);
    }
  }

  /** Same-column reorder keeps the board valid. */
  lemma ReorderTaskValid(b: Board, colId: Id, from: nat, to: nat)
    requires Valid(b) && colId in b.columns
    requires from < |b.columns[colId].taskIds| && to < |b.columns[colId].taskIds|
    ensures Valid(ReorderTask(b, colId, from, to, b.columns[colId].taskIds[from]))
  {
    var ids := b.columns[colId].taskIds;
    var r := ReorderTask(b, colId, from, to, ids[from]);
    var nc := b.columns[colId].(taskIds := Move(ids, from, to, ids[from]));
    ReorderTaskSpec(b, colId, from, to, ids[from]);
    MovePermutes(ids, from, to);
    assert r == b.(columns := b.columns[colId := nc]);
    ReplaceColumnValid(b, colId, nc);
  }

  /** Cross-column move: the dragged task leaves the start column and enters
      the finish column at `to`; every other column, the tasks and the total
      number of task references are kept. */
  lemma TransferTaskSpec(b: Board, startId: Id, from: nat, finishId: Id, to: nat, draggableId: Id)
    requires startId in b.columns && finishId in b.columns && startId != finishId
    requires b.columns[startId].id == startId && b.columns[finishId].id == finishId
    requires NoDups(b.columnOrder) && startId in b.columnOrder && finishId in b.columnOrder
    requires from < |b.columns[startId].taskIds| && to <= |b.columns[finishId].taskIds|
    ensures var start := b.columns[startId].taskIds;
      var finish := b.columns[finishId].taskIds;
      var r := TransferTask(b, startId, from, finishId, to, draggableId);
      r.columns == b.columns[startId := b.columns[startId].(taskIds := RemoveAt(start, from))]
                            [finishId := b.columns[finishId].(taskIds := InsertAt(finish, to, draggableId))] &&
      TotalTaskRefs(r) == TotalTaskRefs(b) &&
      r.tasks == b.tasks
  {
    var newStart := b.columns[startId].(taskIds := RemoveAt(b.columns[startId].taskIds, from));
    var newFinish := b.columns[finishId].(taskIds := InsertAt(b.columns[finishId].taskIds, to, draggableId));
    SumLengthsUpdate(b.columns, b.columnOrder, startId, newStart);
    SumLengthsUpdate(b.columns[startId := newStart], b.columnOrder, finishId, newFinish);
  }

  /** Cross-column move of the task at `from` keeps the board valid. */
  lemma TransferTaskValid(b: Board, startId: Id, from: nat, finishId: Id, to: nat)
    requires Valid(b) && startId in b.columns && finishId in b.columns && startId != finishId
    requires from < |b.columns[startId].taskIds| && to <= |b.columns[finishId].taskIds|
    ensures Valid(TransferTask(b, startId, from, finishId, to, b.columns[startId].taskIds[from]))
  {
    var start := b.columns[startId].taskIds;
    var finish := b.columns[finishId].taskIds;
    var x := start[from];
    var newStart := b.columns[startId].(taskIds := RemoveAt(start, from));
    var newFinish := b.columns[finishId].(taskIds := InsertAt(finish, to, x));
    var r := TransferTask(b, startId, from, finishId, to, x);
    assert r.columns == b.columns[startId := newStart][finishId := newFinish];
    assert x !in finish;
    RemoveAtNoDups(start, from);
    InsertAtNoDups(finish, to, x);
    TransferMembership(b, r, startId, finishId, x);
  }

  /** `r` differs from `b` only in that the task id `x` left the column
      `startId` and joined the column `finishId`, which did not list it. */
  ghost predicate MovesOneTask(b: Board, r: Board, startId: Id, finishId: Id, x: Id) {
    startId in b.columns && finishId in b.columns && startId != finishId &&
    x in b.columns[startId].taskIds && x !in b.columns[finishId].taskIds &&
    r.tasks == b.tasks && r.columnOrder == b.columnOrder && r.columns.Keys == b.columns.Keys &&
    (forall c :: c in r.columns ==> r.columns[c].id == b.columns[c].id) &&
    (forall c :: c in r.columns && c != startId && c != finishId ==> r.columns[c] == b.columns[c]) &&
    (forall t :: t in r.columns[startId].taskIds <==> t in b.columns[startId].taskIds && t != x) &&
    (forall t :: t in r.columns[finishId].taskIds <==> t in b.columns[finishId].taskIds || t == x) &&
    NoDups(r.columns[startId].taskIds) && NoDups(r.columns[finishId].taskIds)
  }

  /** The validity of a board whose only change is that one task moved
      between two columns. */
  lemma TransferMembership(b: Board, r: Board, startId: Id, finishId: Id, x: Id)
    requires Valid(b) && MovesOneTask(b, r, startId, finishId, x)
    ensures Valid(r)
  {
    MovesOneTaskRefs(b, r, startId, finishId, x);
    MovesOneTaskUnique(b, r, startId, finishId, x);
    MovesOneTaskNoOrphans(b, r, startId, finishId, x);
  }

  lemma MovesOneTaskRefs(b: Board, r: Board, startId: Id, finishId: Id, x: Id)
    requires RefsResolve(b) && MovesOneTask(b, r, startId, finishId, x)
    ensures RefsResolve(r)
  {
    forall c, t | c in r.columns && t in r.columns[c].taskIds ensures t in r.tasks {
      assert t in b.columns[c].taskIds || (c == finishId && t == x);
    }
  }

  lemma MovesOneTaskUnique(b: Board, r: Board, startId: Id, finishId: Id, x: Id)
    requires RefsUnique(b) && MovesOneTask(b, r, startId, finishId, x)
    ensures RefsUnique(r)
  {
    forall c1, c2, t | c1 in r.columns && c2 in r.columns && t in r.columns[c1].taskIds && t in r.columns[c2].taskIds
      ensures c1 == c2
    {
      if t == x {
        assert c1 == finishId && c2 == finishId;
      } else {
        assert t in b.columns[c1].taskIds && t in b.columns[c2].taskIds;
      }
    }
  }

  lemma MovesOneTaskNoOrphans(b: Board, r: Board, startId: Id, finishId: Id, x: Id)
    requires NoOrphans(b) && MovesOneTask(b, r, startId, finishId, x)
    ensures NoOrphans(r)
  {
    forall t | t in r.tasks ensures exists c :: c in r.columns && t in r.columns[c].taskIds {
      if t == x {
        assert finishId in r.columns && t in r.columns[finishId].taskIds;
      } else {
        var c :| c in b.columns && t in b.columns[c].taskIds;
        assert c in r.columns && t in r.columns[c].taskIds;
      }
    }
  }

  /** Every drop the drag library can report keeps a valid board valid. */
  lemma DragEndValid(b: Board, d: DropResult)
    requires Valid(b) && DragConsistent(b, d)
    ensures var r := DragEnd(b, d); r.Some? ==> Valid(r.value)
  {
    if d.destination.Some? {
      var dest := d.destination.value;
      if d.dragType == ColumnDrag {
        MoveColumnSpec(b, d.source.index, dest.index);
      } else if d.source.droppableId == dest.droppableId {
        ReorderTaskValid(b, d.source.droppableId, d.source.index, dest.index);
      } else {
        TransferTaskValid(b, d.source.droppableId, d.source.index, dest.droppableId, dest.index);
      }
    }
  }

  /** `addColumn` with a fresh id: a "New Column" with no tasks is appended,
      the tasks, the other columns and the number of task references are
      untouched. */
  lemma AddColumnSpec(b: Board, newColId: Id)
    requires newColId !in b.columns && newColId !in b.columnOrder
    ensures var r := AddColumn(b, newColId);
      r.columns == b.columns[newColId := Column(newColId, "New Column", [])] &&
      |r.columns| == |b.columns| + 1 &&
      TotalTaskRefs(r) == TotalTaskRefs(b)
  {
    SumLengthsAppend(b.columns, b.columnOrder, newColId, Column(newColId, NewColumnTitle, []));
  }

  /** `addColumn` with a fresh id keeps the board valid. */
  lemma AddColumnValid(b: Board, newColId: Id)
    requires Valid(b) && newColId !in b.columns
    ensures Valid(AddColumn(b, newColId))
  {
    var r := AddColumn(b, newColId);
    AppendNoDups(b.columnOrder, newColId);
    assert NoOrphans(r) by {
      forall t | t in r.tasks ensures exists c :: c in r.columns && t in r.columns[c].taskIds {
        var c :| c in b.columns && t in b.columns[c].taskIds;
        assert c in r.columns && t in r.columns[c].taskIds;
      }
    }
  }

  lemma {:induction false} SumLengthsAppend(columns: map<Id, Column>, order: seq<Id>, k: Id, col: Column)
    requires k !in order && col.taskIds == []
    ensures SumLengths(columns[k := col], order + [k]) == SumLengths(columns, order)
  {
    if order == [] {
      assert [k][1..] == [];
    } else {
      assert (order + [k])[1..] == order[1..] + [k];
      SumLengthsAppend(columns, order[1..], k, col);
      assert order[0] != k;
    }
  }

  /** `addTask` with a fresh id: exactly one task, titled "New Task" with an
      empty description, is added, its id is appended to exactly the target
      column, and nothing else changes. */
  lemma AddTaskSpec(b: Board, colId: Id, newTaskId: Id, createdAt: Timestamp, updatedAt: Timestamp)
    requires colId in b.columns && newTaskId !in b.tasks
    requires NoDups(b.columnOrder) && colId in b.columnOrder
    ensures var r := AddTask(b, colId, newTaskId, createdAt, updatedAt);
      r.tasks == b.tasks[newTaskId := Task(newTaskId, "New Task", "", createdAt, updatedAt)] &&
      |r.tasks| == |b.tasks| + 1 &&
      r.columns == b.columns[colId := b.columns[colId].(taskIds := b.columns[colId].taskIds + [newTaskId])] &&
      TotalTaskRefs(r) == TotalTaskRefs(b) + 1
  {
    var r := AddTask(b, colId, newTaskId, createdAt, updatedAt);
    SumLengthsUpdate(b.columns, b.columnOrder, colId, r.columns[colId]);
  }

  /** `addTask` with a fresh id keeps the board valid. */
  lemma AddTaskValid(b: Board, colId: Id, newTaskId: Id, createdAt: Timestamp, updatedAt: Timestamp)
    requires Valid(b) && colId in b.columns && newTaskId !in b.tasks
    ensures Valid(AddTask(b, colId, newTaskId, createdAt, updatedAt))
  {
    assert newTaskId !in b.columns[colId].taskIds;
    AppendNoDups(b.columns[colId].taskIds, newTaskId);
    AddTaskKeys(b, colId, newTaskId, createdAt, updatedAt);
    AddTaskRefs(b, colId, newTaskId, createdAt, updatedAt);
    AddTaskUnique(b, colId, newTaskId, createdAt, updatedAt);
    AddTaskNoOrphans(b, colId, newTaskId, createdAt, updatedAt);
  }

  lemma AddTaskKeys(b: Board, colId: Id, newTaskId: Id, createdAt: Timestamp, updatedAt: Timestamp)
    requires OrderMatchesColumns(b) && KeysMatchIds(b) && colId in b.columns
    ensures OrderMatchesColumns(AddTask(b, colId, newTaskId, createdAt, updatedAt))
    ensures KeysMatchIds(AddTask(b, colId, newTaskId, createdAt, updatedAt))
  {
  }

  lemma AddTaskRefs(b: Board, colId: Id, newTaskId: Id, createdAt: Timestamp, updatedAt: Timestamp)
    requires RefsResolve(b) && colId in b.columns
    ensures RefsResolve(AddTask(b, colId, newTaskId, createdAt, updatedAt))
  {
    var r := AddTask(b, colId, newTaskId, createdAt, updatedAt);
    forall c, t | c in r.columns && t in r.columns[c].taskIds ensures t in r.tasks {
      if t != newTaskId {
        assert t in b.columns[c].taskIds;
      }
    }
  }

  lemma AddTaskUnique(b: Board, colId: Id, newTaskId: Id, createdAt: Timestamp, updatedAt: Timestamp)
    requires RefsResolve(b) && RefsUnique(b) && colId in b.columns && newTaskId !in b.tasks
    requires NoDups(b.columns[colId].taskIds + [newTaskId])
    ensures RefsUnique(AddTask(b, colId, newTaskId, createdAt, updatedAt))
  {
    var r := AddTask(b, colId, newTaskId, createdAt, updatedAt);
    forall c1, c2, t | c1 in r.columns && c2 in r.columns && t in r.columns[c1].taskIds && t in r.columns[c2].taskIds
      ensures c1 == c2
    {
      if t == newTaskId {
        assert c1 == colId && c2 == colId;
      } else {
        assert t in b.columns[c1].taskIds && t in b.columns[c2].taskIds;
      }
    }
  }

  lemma AddTaskNoOrphans(b: Board, colId: Id, newTaskId: Id, createdAt: Timestamp, updatedAt: Timestamp)
    requires NoOrphans(b) && colId in b.columns
    ensures NoOrphans(AddTask(b, colId, newTaskId, createdAt, updatedAt))
  {
    var r := AddTask(b, colId, newTaskId, createdAt, updatedAt);
    forall t | t in r.tasks ensures exists c :: c in r.columns && t in r.columns[c].taskIds {
      if t == newTaskId {
        assert colId in r.columns && t in r.columns[colId].taskIds;
      } else {
        var c :| c in b.columns && t in b.columns[c].taskIds;
        assert c in r.columns && t in r.columns[c].taskIds;
      }
    }
  }

  /** `deleteTask`: exactly that id leaves `tasks`, the named column keeps
      every other entry in order, and every other column is untouched. */
  lemma DeleteTaskSpec(b: Board, colId: Id, taskId: Id)
    requires colId in b.columns
    ensures var r := DeleteTask(b, colId, taskId);
      (forall t :: t in r.tasks <==> t in b.tasks && t != taskId) &&
      (forall t :: t in r.tasks ==> r.tasks[t] == b.tasks[t]) &&
      r.columns[colId] == b.columns[colId].(taskIds := Filter(b.columns[colId].taskIds, taskId)) &&
      (forall c :: c in b.columns && c != colId ==> r.columns[c] == b.columns[c])
  {
  }

  /** `deleteTask` of a task that the named column lists (or of an id that
      is not stored) keeps the board valid. */
  lemma DeleteTaskValid(b: Board, colId: Id, taskId: Id)
    requires Valid(b) && colId in b.columns
    requires taskId in b.columns[colId].taskIds || taskId !in b.tasks
    ensures Valid(DeleteTask(b, colId, taskId))
  {
    FilterNoDups(b.columns[colId].taskIds, taskId);
    DeleteTaskKeys(b, colId, taskId);
    DeleteTaskRefsResolve(b, colId, taskId);
    DeleteTaskUnique(b, colId, taskId);
    DeleteTaskNoOrphans(b, colId, taskId);
  }

  lemma DeleteTaskKeys(b: Board, colId: Id, taskId: Id)
    requires OrderMatchesColumns(b) && KeysMatchIds(b) && colId in b.columns
    ensures OrderMatchesColumns(DeleteTask(b, colId, taskId)) && KeysMatchIds(DeleteTask(b, colId, taskId))
  {
  }

  lemma DeleteTaskUnique(b: Board, colId: Id, taskId: Id)
    requires RefsUnique(b) && colId in b.columns && NoDups(Filter(b.columns[colId].taskIds, taskId))
    ensures RefsUnique(DeleteTask(b, colId, taskId))
  {
    var r := DeleteTask(b, colId, taskId);
    forall c1, c2, t | c1 in r.columns && c2 in r.columns && t in r.columns[c1].taskIds && t in r.columns[c2].taskIds
      ensures c1 == c2
    {
      assert t in b.columns[c1].taskIds && t in b.columns[c2].taskIds;
    }
  }

  lemma DeleteTaskNoOrphans(b: Board, colId: Id, taskId: Id)
    requires NoOrphans(b) && RefsUnique(b) && colId in b.columns
    requires taskId in b.columns[colId].taskIds || taskId !in b.tasks
    ensures NoOrphans(DeleteTask(b, colId, taskId))
  {
    var r := DeleteTask(b, colId, taskId);
    forall t | t in r.tasks ensures exists c :: c in r.columns && t in r.columns[c].taskIds {
      var c :| c in b.columns && t in b.columns[c].taskIds;
      assert c in r.columns && t in r.columns[c].taskIds;
    }
  }

  /** The references part of `DeleteTaskValid`: no column of the result
      lists the deleted id. */
  lemma DeleteTaskRefsResolve(b: Board, colId: Id, taskId: Id)
    requires RefsResolve(b) && RefsUnique(b) && colId in b.columns
    requires taskId in b.columns[colId].taskIds || taskId !in b.tasks
    ensures RefsResolve(DeleteTask(b, colId, taskId))
  {
    var r := DeleteTask(b, colId, taskId);
    forall c, t | c in r.columns && t in r.columns[c].taskIds ensures t in r.tasks {
      assert t in b.columns[c].taskIds;
      assert t != taskId by {
        if c != colId && taskId in b.columns[colId].taskIds {
          assert t in b.columns[c].taskIds;
        }
      }
    }
  }

  /** `deleteTask` naming the wrong column still drops the task from `tasks`,
      so the column that does list it is left with a dangling reference. */
  lemma DeleteTaskWrongColumn(b: Board, colId: Id, otherId: Id, taskId: Id)
    requires Valid(b) && colId in b.columns && otherId in b.columns && otherId != colId
    requires taskId in b.columns[otherId].taskIds
    ensures !RefsResolve(DeleteTask(b, colId, taskId))
  {
    var r := DeleteTask(b, colId, taskId);
    assert taskId in r.columns[otherId].taskIds && taskId !in r.tasks;
  }

  /** `updateTaskTitle` changes that task's title and `updatedAt` and nothing
      else. */
  lemma UpdateTaskTitleSpec(b: Board, taskId: Id, title: string, now: Timestamp)
    requires taskId in b.tasks
    ensures var r := UpdateTaskTitle(b, taskId, title, now);
      r.tasks[taskId] == b.tasks[taskId].(title := title, updatedAt := now) &&
      r.tasks[taskId].createdAt == b.tasks[taskId].createdAt &&
      (forall t :: t in b.tasks && t != taskId ==> r.tasks[t] == b.tasks[t])
  {
  }

  /** `updateTaskTitle` keeps the board valid. */
  lemma UpdateTaskTitleValid(b: Board, taskId: Id, title: string, now: Timestamp)
    requires Valid(b) && taskId in b.tasks
    ensures Valid(UpdateTaskTitle(b, taskId, title, now))
  {
    var r := UpdateTaskTitle(b, taskId, title, now);
    assert r.columns == b.columns && r.tasks.Keys == b.tasks.Keys;
    assert NoOrphans(r) by {
      forall t | t in r.tasks ensures exists c :: c in r.columns && t in r.columns[c].taskIds {
        assert t in b.tasks;
      }
    }
  }

  /** Setting the same task title twice is setting it once with the later time. */
  lemma UpdateTaskTitleIdempotent(b: Board, taskId: Id, title: string, now1: Timestamp, now2: Timestamp)
    requires taskId in b.tasks
    ensures UpdateTaskTitle(UpdateTaskTitle(b, taskId, title, now1), taskId, title, now2) == UpdateTaskTitle(b, taskId, title, now2)
  {
    assert UpdateTaskTitle(b, taskId, title, now1).tasks[taskId].createdAt == b.tasks[taskId].createdAt;
  }

  /** `updateColumnTitle` changes that column's title and nothing else, and
      keeps the board valid. */
  lemma UpdateColumnTitleSpec(b: Board, colId: Id, title: string)
    requires Valid(b) && colId in b.columns
    ensures var r := UpdateColumnTitle(b, colId, title);
      r.columns[colId] == b.columns[colId].(title := title) &&
      (forall c :: c in b.columns && c != colId ==> r.columns[c] == b.columns[c]) &&
      Valid(r)
  {
    ReplaceColumnValid(b, colId, b.columns[colId].(title := title));
  }

  /** Setting the same column title twice is setting it once. */
  lemma UpdateColumnTitleIdempotent(b: Board, colId: Id, title: string)
    requires colId in b.columns
    ensures UpdateColumnTitle(UpdateColumnTitle(b, colId, title), colId, title) == UpdateColumnTitle(b, colId, title)
  {
  }

  /** `deleteColumn`: the column leaves `columns` and `columnOrder`, the
      other column ids keep their order, its tasks and only those leave
      `tasks`, every remaining task and column is untouched, and the board
      stays valid. */
  lemma DeleteColumnSpec(b: Board, colId: Id)
    requires Valid(b) && colId in b.columns
    ensures var r := DeleteColumn(b, colId);
      colId !in r.columnOrder && r.columnOrder == Filter(b.columnOrder, colId) &&
      (forall t :: t in r.tasks <==> t in b.tasks && t !in b.columns[colId].taskIds) &&
      (forall t :: t in r.tasks ==> r.tasks[t] == b.tasks[t]) &&
      (forall c :: c in r.columns ==> r.columns[c] == b.columns[c]) &&
      Valid(r)
  {
    var r := DeleteColumn(b, colId);
    FilterNoDups(b.columnOrder, colId);
    forall c, t | c in r.columns && t in r.columns[c].taskIds ensures t in r.tasks {
      assert t in b.columns[c].taskIds;
      assert t !in b.columns[colId].taskIds;
    }
    forall t | t in r.tasks ensures exists c :: c in r.columns && t in r.columns[c].taskIds {
      var c :| c in b.columns && t in b.columns[c].taskIds;
      assert c != colId;
      assert c in r.columns && t in r.columns[c].taskIds;
    }
  }
}
