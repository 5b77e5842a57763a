/** The sortable todo list: what a drag gesture does when it ends. A drag
    whose horizontal displacement passes the threshold moves the item one
    status column to the right or to the left; any other drag reorders the
    list by moving the dragged item to the drop target's index. */
module TodoList {
  import opened Todos
  import Sortable
  import UpdateTodoMutation

  /** The column of a status, counted from the left. */
  function Column(s: Status): nat {
    match s
    case Todo => 0
    case InProgress => 1
    case Completed => 2
  }

  /** The status after a drag to the right: one column further right, or the
      last column when already there. */
  function RightOf(s: Status): (r: Status)
    ensures Column(r) == if Column(s) == 2 then 2 else Column(s) + 1
  {
    match s
    case Todo => InProgress
    case InProgress => Completed
    case Completed => Completed
  }

  /** The status after a drag to the left: one column further left, or the
      first column when already there. */
  function LeftOf(s: Status): (r: Status)
    ensures Column(r) == if Column(s) == 0 then 0 else Column(s) - 1
  {
    match s
    case Todo => Todo
    case InProgress => Todo
    case Completed => InProgress
  }

  /** The status a drag with horizontal displacement `dx` asks for. Both
      comparisons with the threshold are strict, so a drag within the
      threshold on both sides, exactly at it included, keeps the status; the
      right-hand test comes first. */
  function DraggedStatus(current: Status, dx: real, threshold: real): (r: Status)
    ensures dx > threshold ==> r == RightOf(current)
    ensures dx <= threshold && dx < -threshold ==> r == LeftOf(current)
    ensures -threshold <= dx <= threshold ==> r == current
  {
    if dx > threshold then RightOf(current)
    else if dx < -threshold then LeftOf(current)
    else current
  }

  /** The column determines the status, and each table leaves the status
      alone exactly at its own outer column. */
  lemma ColumnDeterminesStatus(s: Status)
    ensures forall t: Status :: Column(t) == Column(s) ==> t == s
    ensures RightOf(s) == s <==> s == Completed
    ensures LeftOf(s) == s <==> s == Todo
  {
  }

  /** A left drag undoes a right drag that changed something, and the other
      way round. */
  lemma LeftUndoesRight(s: Status)
    ensures RightOf(s) != s ==> LeftOf(RightOf(s)) == s
    ensures LeftOf(s) != s ==> RightOf(LeftOf(s)) == s
  {
  }

  /** The status changes exactly when the drag passes the threshold to the
      right of an item that is not completed, or to the left of an item that
      is not a plain todo. */
  lemma StatusChangesIff(s: Status, dx: real, threshold: real)
    ensures DraggedStatus(s, dx, threshold) != s <==>
      (dx > threshold && s != Completed) || (dx <= threshold && dx < -threshold && s != Todo)
  {
  }

  /** With a threshold of 100: a drag of 150 moves a todo to in progress; a
      drag of -50 leaves an in-progress item where it is; a drag of exactly
      100 leaves a todo where it is. */
  lemma ThresholdExamples()
    ensures DraggedStatus(Todo, 150.0, 100.0) == InProgress
    ensures DraggedStatus(InProgress, -50.0, 100.0) == InProgress
    ensures DraggedStatus(Todo, 100.0, 100.0) == Todo
  {
  }

  /** What a finished drag does: nothing; a status change, which sends one
      update request and hands the parent the list with the item replaced; or
      a reorder, which hands the parent the rearranged list. */
  datatype DragOutcome =
    | Unchanged
    | StatusChanged(request: TodoItem, todos: seq<TodoItem>)
    | Reordered(todos: seq<TodoItem>)

  /** The outcome of a drag of the item with `activeId` that was released
      over the item `overId` (or over nothing) after moving `dx` sideways. The
      drop target is always an item of the list, since only the list's items
      are registered as targets. */
  function DragEndOutcome(todos: seq<TodoItem>, activeId: int, overId: Option<int>, dx: real, threshold: real): (o: DragOutcome)
    requires overId.Some? ==> HasId(todos, overId.value)
    ensures overId.None? || !HasId(todos, activeId) ==> o == Unchanged
    ensures o.StatusChanged? ==>
      && HasId(todos, activeId)
      && var active := FindById(todos, activeId).value;
      && o.request == active.(status := o.request.status)
      && o.request.status != active.status
      && |o.todos| == |todos|
      && (forall k :: 0 <= k < |todos| && todos[k].id == activeId ==> o.todos[k] == o.request)
      && (forall k :: 0 <= k < |todos| && todos[k].id != activeId ==> o.todos[k] == todos[k])
    ensures o.Reordered? ==>
      && overId.Some? && overId.value != activeId && HasId(todos, activeId)
      && var from, to := IndexOfId(todos, activeId), IndexOfId(todos, overId.value);
      && 0 <= from && 0 <= to
      && |o.todos| == |todos|
      && multiset(o.todos) == multiset(todos)
      && o.todos[to] == todos[from]
      && Sortable.RemoveAt(o.todos, to) == Sortable.RemoveAt(todos, from)
  {
    if overId.None? then Unchanged
    else
      var from := IndexOfId(todos, activeId);
      if from < 0 then Unchanged
      else
        var active := todos[from];
        var newStatus := DraggedStatus(active.status, dx, threshold);
        if newStatus != active.status then
          var updated := active.(status := newStatus);
          StatusChanged(updated, ReplaceById(todos, updated))
        else if activeId != overId.value then
          Reordered(Sortable.ArrayMove(todos, from, IndexOfId(todos, overId.value)))
        else Unchanged
  }

  /** The three outcomes, told apart by the gesture alone: a status change
      exactly when the threshold is passed in a direction the item can move;
      otherwise a reorder exactly when the item was dropped on another item. */
  lemma DragEndClassification(todos: seq<TodoItem>, activeId: int, overId: Option<int>, dx: real, threshold: real)
    requires overId.Some? ==> HasId(todos, overId.value)
    requires overId.Some? && HasId(todos, activeId)
    ensures var status := FindById(todos, activeId).value.status;
      var o := DragEndOutcome(todos, activeId, overId, dx, threshold);
      && (o.StatusChanged? <==> DraggedStatus(status, dx, threshold) != status)
      && (o.Reordered? <==> DraggedStatus(status, dx, threshold) == status && overId.value != activeId)
      && (o.Unchanged? <==> DraggedStatus(status, dx, threshold) == status && overId.value == activeId)
  {
  }

  /** A status change carries the new status the drag direction asks for. */
  lemma StatusChangeFollowsTables(todos: seq<TodoItem>, activeId: int, overId: Option<int>, dx: real, threshold: real)
    requires overId.Some? ==> HasId(todos, overId.value)
    requires DragEndOutcome(todos, activeId, overId, dx, threshold).StatusChanged?
    ensures var status := FindById(todos, activeId).value.status;
      var request := DragEndOutcome(todos, activeId, overId, dx, threshold).request;
      && (dx > threshold ==> request.status == RightOf(status))
      && (dx <= threshold ==> dx < -threshold && request.status == LeftOf(status))
  {
  }

  /** An edge drag that maps to the same status (a completed item dragged
      right, a todo item dragged left) is not handled as a status change and
      falls through to reordering. */
  lemma SameStatusEdgeDragReorders(todos: seq<TodoItem>, activeId: int, overId: int, dx: real, threshold: real)
    requires HasId(todos, activeId) && HasId(todos, overId) && activeId != overId
    requires threshold >= 0.0
    requires var status := FindById(todos, activeId).value.status;
      (dx > threshold && status == Completed) || (dx < -threshold && status == Todo)
    ensures DragEndOutcome(todos, activeId, Some(overId), dx, threshold).Reordered?
  {
  }

  /** Within the threshold the outcome is never a status change, and a drop
      onto the dragged item itself changes nothing. */
  lemma WithinThresholdNeverChangesStatus(todos: seq<TodoItem>, activeId: int, overId: Option<int>, dx: real, threshold: real)
    requires overId.Some? ==> HasId(todos, overId.value)
    requires -threshold <= dx <= threshold
    ensures !DragEndOutcome(todos, activeId, overId, dx, threshold).StatusChanged?
    ensures overId == Some(activeId) ==> DragEndOutcome(todos, activeId, overId, dx, threshold) == Unchanged
  {
  }

  /** The list a status change hands to the parent is the list the update
      mutation's cache updater computes from the same list once the echoed
      request comes back. */
  lemma StatusChangeAgreesWithCache(todos: seq<TodoItem>, activeId: int, overId: Option<int>, dx: real, threshold: real)
    requires overId.Some? ==> HasId(todos, overId.value)
    requires DragEndOutcome(todos, activeId, overId, dx, threshold).StatusChanged?
    ensures var o := DragEndOutcome(todos, activeId, overId, dx, threshold);
      o.todos == UpdateTodoMutation.UpdateCache(Some(todos), UpdateTodoMutation.UpdateTodo(o.request))
  {
  }

  /** The list component: the list it is rendered with, and the item being
      dragged, which it shows in the drag overlay. */
  class TodoListView {
    var todos: seq<TodoItem>
    var activeTodo: Option<TodoItem>

    constructor (todos: seq<TodoItem>)
      ensures this.todos == todos && activeTodo == None
    {
      this.todos := todos;
      activeTodo := None;
    }

    /** The parent renders the component again with a new list; the dragged
        item is component state and survives. */
    method Rerender(todos: seq<TodoItem>)
      modifies this
      ensures this.todos == todos && activeTodo == old(activeTodo)
    {
      this.todos := todos;
    }

    /** A drag starts: the dragged item is the first entry with the active
        id, or none. */
    method HandleDragStart(activeId: int)
      modifies this
      ensures activeTodo == FindById(todos, activeId)
      ensures todos == old(todos)
    {
      activeTodo := FindById(todos, activeId);
    }

    /** A drag ends: the overlay is cleared whatever happens, and the outcome
        is worked out by reassigning the new status through the two direction
        tables. */
    method HandleDragEnd(activeId: int, overId: Option<int>, dx: real, threshold: real) returns (o: DragOutcome)
      requires overId.Some? ==> HasId(todos, overId.value)
      modifies this
      ensures activeTodo == None && todos == old(todos)
      ensures o == DragEndOutcome(todos, activeId, overId, dx, threshold)
    {
      activeTodo := None;
      if overId.None? {
        return Unchanged;
      }
      var found := FindById(todos, activeId);
      if found.None? {
        return Unchanged;
      }
      var active := found.value;
      var newStatus := active.status;
      if dx > threshold {
        match active.status {
          case Todo => newStatus := InProgress;
          case InProgress => newStatus := Completed;
          case Completed =>
        }
      } else if dx < -threshold {
        match active.status {
          case Todo =>
          case InProgress => newStatus := Todo;
          case Completed => newStatus := InProgress;
        }
      }
      if newStatus != active.status {
        var updated := active.(status := newStatus);
        return StatusChanged(updated, ReplaceById(todos, updated));
      }
      if activeId != overId.value {
        var oldIndex := IndexOfId(todos, activeId);
        var newIndex := IndexOfId(todos, overId.value);
        return Reordered(Sortable.ArrayMove(todos, oldIndex, newIndex));
      }
      return Unchanged;
    }
  }
}
