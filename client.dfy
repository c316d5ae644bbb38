/** One browser client of the board (the state and handlers of the `App`
    component in src/App.jsx): the board it holds, `null` until the first
    `boardState` message, and the full boards it has sent with
    `socket.emit("updateBoard", …)`. Each handler changes its local copies
    step by step as the component does and then commits the new board. */
module BoardClient {
  import opened Wrappers
  import opened Lists
  import opened TaskBoard

  /** The `forEach` of `deleteColumn`: delete every listed id from a copy of
      the task map, one at a time. */
  method RemoveTasks(tasks: map<Id, Task>, ids: seq<Id>) returns (r: map<Id, Task>)
    ensures r == tasks - TaskIdSet(ids)
  {
    r := tasks;
    var i := 0;
    while i < |ids|
      invariant 0 <= i <= |ids|
      invariant r == tasks - TaskIdSet(ids[..i])
    {
      assert TaskIdSet(ids[..i + 1]) == TaskIdSet(ids[..i]) + {ids[i]} by {
        assert ids[..i + 1] == ids[..i] + [ids[i]];
      }
      r := r - {ids[i]};
      i := i + 1;
    }
    assert ids[..i] == ids;
  }

  class Client {
    /** The `board` state of the component; `None` is the initial `null`. */
    var board: Option<Board>
    /** Every board sent to the coordination server, oldest first. */
    var outbox: seq<Board>

    constructor ()
      ensures board == None && outbox == []
    {
      board := None;
      outbox := [];
    }

    /** The `boardState` handler: the received board replaces whatever is
        held, and nothing is sent. */
    method ReceiveBoardState(newBoard: Board)
      modifies this
      ensures board == Some(newBoard) && outbox == old(outbox)
    {
      board := Some(newBoard);
    }

    /** `setBoard(newBoard)` followed by `socket.emit("updateBoard", newBoard)`. */
    method Commit(newBoard: Board)
      modifies this
      ensures board == Some(newBoard) && outbox == old(outbox) + [newBoard]
    {
      board := Some(newBoard);
      outbox := outbox + [newBoard];
    }

    /** `onDragEnd`. While the board is still loading nothing happens; a drop
        without a destination changes and sends nothing; otherwise the board
        becomes the result of the drop and is sent. */
    method OnDragEnd(result: DropResult)
      requires board.Some? ==> DropFits(board.value, result)
      modifies this
      ensures old(board).None? ==> board == old(board) && outbox == old(outbox)
      ensures old(board).Some? ==>
        var r := DragEnd(old(board).value, result);
        if r.Some? then board == r && outbox == old(outbox) + [r.value]
        else board == old(board) && outbox == old(outbox)
      ensures old(board).Some? && Valid(old(board).value) && DragConsistent(old(board).value, result) ==>
        board.Some? && Valid(board.value)
    {
      if board.None? {
        return;
      }
      var b := board.value;
      if Valid(b) && DragConsistent(b, result) {
        DragEndValid(b, result);
      }
      if result.destination.None? {
        return;
      }
      var source := result.source;
      var destination := result.destination.value;
      if result.dragType == ColumnDrag {
        var newColumnOrder := b.columnOrder;
        newColumnOrder := RemoveAt(newColumnOrder, source.index);
        newColumnOrder := InsertAt(newColumnOrder, destination.index, result.draggableId);
        Commit(b.(columnOrder := newColumnOrder));
        return;
      }
      var start := b.columns[source.droppableId];
      var finish := b.columns[destination.droppableId];
      if source.droppableId == destination.droppableId {
        var newTaskIds := start.taskIds;
        newTaskIds := RemoveAt(newTaskIds, source.index);
        newTaskIds := InsertAt(newTaskIds, destination.index, result.draggableId);
        var newColumn := start.(taskIds := newTaskIds);
        Commit(b.(columns := b.columns[newColumn.id := newColumn]));
        return;
      }
      var startTaskIds := RemoveAt(start.taskIds, source.index);
      var newStart := start.(taskIds := startTaskIds);
      var finishTaskIds := InsertAt(finish.taskIds, destination.index, result.draggableId);
      var newFinish := finish.(taskIds := finishTaskIds);
      Commit(b.(columns := b.columns[newStart.id := newStart][newFinish.id := newFinish]));
    }

    /** `addColumn`, with `newColId` standing for the fresh `uuidv4()`. */
    method AddColumn(newColId: Id)
      requires board.Some? ==> newColId !in board.value.columns
      modifies this
      ensures old(board).None? ==> board == old(board) && outbox == old(outbox)
      ensures old(board).Some? ==>
        board == Some(TaskBoard.AddColumn(old(board).value, newColId)) && outbox == old(outbox) + [board.value]
      ensures old(board).Some? && Valid(old(board).value) ==> Valid(board.value)
    {
      if board.None? {
        return;
      }
      var b := board.value;
      if Valid(b) {
        AddColumnValid(b, newColId);
      }
      var newColumn := Column(newColId, NewColumnTitle, []);
      Commit(b.(columns := b.columns[newColId := newColumn], columnOrder := b.columnOrder + [newColId]));
    }

    /** `addTask`, with `newTaskId` standing for the fresh `uuidv4()` and the
        two timestamps for the two `new Date()` readings. */
    method AddTask(colId: Id, newTaskId: Id, createdAt: Timestamp, updatedAt: Timestamp)
      requires board.Some? ==> colId in board.value.columns && newTaskId !in board.value.tasks
      modifies this
      ensures old(board).None? ==> board == old(board) && outbox == old(outbox)
      ensures old(board).Some? ==>
        board == Some(TaskBoard.AddTask(old(board).value, colId, newTaskId, createdAt, updatedAt)) &&
        outbox == old(outbox) + [board.value]
      ensures old(board).Some? && Valid(old(board).value) ==> Valid(board.value)
    {
      if board.None? {
        return;
      }
      var b := board.value;
      if Valid(b) {
        AddTaskValid(b, colId, newTaskId, createdAt, updatedAt);
      }
      var newTask := Task(newTaskId, NewTaskTitle, "", createdAt, updatedAt);
      var newTasks := b.tasks[newTaskId := newTask];
      var newTaskIds := b.columns[colId].taskIds + [newTaskId];
      var newColumn := b.columns[colId].(taskIds := newTaskIds);
      Commit(b.(tasks := newTasks, columns := b.columns[colId := newColumn]));
    }

    /** `deleteTask`. */
    method DeleteTask(colId: Id, taskId: Id)
      requires board.Some? ==> colId in board.value.columns
      modifies this
      ensures old(board).None? ==> board == old(board) && outbox == old(outbox)
      ensures old(board).Some? ==>
        board == Some(TaskBoard.DeleteTask(old(board).value, colId, taskId)) && outbox == old(outbox) + [board.value]
      ensures (old(board).Some? && Valid(old(board).value) &&
               (taskId in old(board).value.columns[colId].taskIds || taskId !in old(board).value.tasks)) ==>
        Valid(board.value)
    {
      if board.None? {
        return;
      }
      var b := board.value;
      if Valid(b) && (taskId in b.columns[colId].taskIds || taskId !in b.tasks) {
        DeleteTaskValid(b, colId, taskId);
      }
      var newTasks := b.tasks;
      newTasks := newTasks - {taskId};
      var newTaskIds := Filter(b.columns[colId].taskIds, taskId);
      var newColumn := b.columns[colId].(taskIds := newTaskIds);
      Commit(b.(tasks := newTasks, columns := b.columns[colId := newColumn]));
    }

    /** `updateTaskTitle`, with `now` standing for `new Date().toISOString()`. */
    method UpdateTaskTitle(taskId: Id, title: string, now: Timestamp)
      requires board.Some? ==> taskId in board.value.tasks
      modifies this
      ensures old(board).None? ==> board == old(board) && outbox == old(outbox)
      ensures old(board).Some? ==>
        board == Some(TaskBoard.UpdateTaskTitle(old(board).value, taskId, title, now)) &&
        outbox == old(outbox) + [board.value]
      ensures old(board).Some? && Valid(old(board).value) ==> Valid(board.value)
    {
      if board.None? {
        return;
      }
      var b := board.value;
      if Valid(b) {
        UpdateTaskTitleValid(b, taskId, title, now);
      }
      var task := b.tasks[taskId];
      var updatedTask := task.(title := title, updatedAt := now);
      Commit(b.(tasks := b.tasks[taskId := updatedTask]));
    }

    /** `updateColumnTitle`. */
    method UpdateColumnTitle(colId: Id, title: string)
      requires board.Some? ==> colId in board.value.columns
      modifies this
      ensures old(board).None? ==> board == old(board) && outbox == old(outbox)
      ensures old(board).Some? ==>
        board == Some(TaskBoard.UpdateColumnTitle(old(board).value, colId, title)) &&
        outbox == old(outbox) + [board.value]
      ensures old(board).Some? && Valid(old(board).value) ==> Valid(board.value)
    {
      if board.None? {
        return;
      }
      var b := board.value;
      if Valid(b) {
        UpdateColumnTitleSpec(b, colId, title);
      }
      var col := b.columns[colId];
      var updatedCol := col.(title := title);
      Commit(b.(columns := b.columns[colId := updatedCol]));
    }

    /** `deleteColumn`, with the cascade over the column's tasks. */
    method DeleteColumn(colId: Id)
      requires board.Some? ==> colId in board.value.columns
      modifies this
      ensures old(board).None? ==> board == old(board) && outbox == old(outbox)
      ensures old(board).Some? ==>
        board == Some(TaskBoard.DeleteColumn(old(board).value, colId)) && outbox == old(outbox) + [board.value]
      ensures old(board).Some? && Valid(old(board).value) ==> Valid(board.value)
    {
      if board.None? {
        return;
      }
      var b := board.value;
      if Valid(b) {
        DeleteColumnSpec(b, colId);
      }
      var column := b.columns[colId];
      var newTasks := RemoveTasks(b.tasks, column.taskIds);
      var newColumns := b.columns;
      newColumns := newColumns - {colId};
      var newColumnOrder := Filter(b.columnOrder, colId);
      Commit(b.(tasks := newTasks, columns := newColumns, columnOrder := newColumnOrder));
    }
  }
}
