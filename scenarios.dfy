/** Concrete runs of the board operations and of two clients sharing one
    board through the coordination server. */
module Scenarios {
  import opened Wrappers
  import opened Lists
  import opened TaskBoard
  import opened BoardClient

  /** A board with one column "X" holding the given tasks in order. */
  function OneColumn(ids: seq<Id>): (b: Board)
    ensures b.columns.Keys == {"X"} && b.columns["X"].taskIds == ids
  {
    Board(map t | t in ids :: Task(t, NewTaskTitle, "", "", ""), map["X" := Column("X", "X", ids)], ["X"])
  }

  /** Dragging the first of `[a, b, c]` to index 2 in the same column gives `[b, c, a]`. */
  lemma SameColumnReorderExample()
    ensures ReorderTask(OneColumn(["a", "b", "c"]), "X", 0, 2, "a").columns["X"].taskIds == ["b", "c", "a"]
  {
    assert RemoveAt(["a", "b", "c"], 0) == ["b", "c"];
    assert InsertAt(["b", "c"], 2, "a") == ["b", "c", "a"];
  }

  /** Dragging the first of X `[a, b]` to index 0 of an empty Y gives X `[b]`, Y `[a]`. */
  lemma CrossColumnMoveExample()
    ensures var b := Board(map["a" := Task("a", "A", "", "", ""), "b" := Task("b", "B", "", "", "")],
                           map["X" := Column("X", "X", ["a", "b"]), "Y" := Column("Y", "Y", [])],
                           ["X", "Y"]);
      var r := TransferTask(b, "X", 0, "Y", 0, "a");
      r.columns["X"].taskIds == ["b"] && r.columns["Y"].taskIds == ["a"]
  {
    assert RemoveAt(["a", "b"], 0) == ["b"];
    assert InsertAt([], 0, "a") == ["a"];
  }

  const EmptyBoard: Board := Board(map[], map[], [])

  /** Adding a column to the empty board, a task to it and deleting the
      column again gives back the empty board; the intermediate boards hold
      one "New Column" and then one task. */
  lemma AddThenDeleteExample(colId: Id, taskId: Id, createdAt: Timestamp, updatedAt: Timestamp)
    ensures var b1 := AddColumn(EmptyBoard, colId);
      var b2 := AddTask(b1, colId, taskId, createdAt, updatedAt);
      b1.columns == map[colId := Column(colId, NewColumnTitle, [])] && b1.columnOrder == [colId] &&
      |b2.columns[colId].taskIds| == 1 && |b2.tasks| == 1 &&
      DeleteColumn(b2, colId) == EmptyBoard
  {
    var b1 := AddColumn(EmptyBoard, colId);
    var b2 := AddTask(b1, colId, taskId, createdAt, updatedAt);
    assert b2.columns[colId].taskIds == [taskId];
    assert b2.tasks.Keys == {taskId};
    assert DeleteColumn(b2, colId).tasks == map[];
    assert DeleteColumn(b2, colId).columns == map[];
    assert Filter([colId], colId) == [];
  }

  /** Last full state wins: two clients start from `b0`; one adds a task, the
      other renames the column from the same `b0`; the server adopts and
      relays the first update and then the second to both clients. Both end
      with the renamed board, from which the added task is absent. */
  method LostUpdate(b0: Board, colId: Id, newTaskId: Id, createdAt: Timestamp, updatedAt: Timestamp)
    returns (final1: Board, final2: Board)
    requires colId in b0.columns && newTaskId !in b0.tasks
    ensures final1 == final2 == UpdateColumnTitle(b0, colId, "Renamed")
    ensures newTaskId in AddTask(b0, colId, newTaskId, createdAt, updatedAt).tasks
    ensures newTaskId !in final1.tasks
  {
    var client1 := new Client();
    var client2 := new Client();
    client1.ReceiveBoardState(b0);
    client2.ReceiveBoardState(b0);
    client1.AddTask(colId, newTaskId, createdAt, updatedAt);
    client2.UpdateColumnTitle(colId, "Renamed");
    var b1 := client1.outbox[0];
    var b2 := client2.outbox[0];
    client1.ReceiveBoardState(b1);
    client2.ReceiveBoardState(b1);
    client1.ReceiveBoardState(b2);
    client2.ReceiveBoardState(b2);
    final1 := client1.board.value;
    final2 := client2.board.value;
  }
}
