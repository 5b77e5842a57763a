/** The application shell: it holds the list on display (the items of one
    status tab, or whatever the list component last handed back), whether
    the add dialog is open, and the language of the drag tips. */
module App {
  import opened Todos
  import Seqs

  /** `todos.filter(todo => todo.status === stat)`. */
  function FilterByStatus(todos: seq<TodoItem>, stat: Status): (r: seq<TodoItem>)
    ensures forall k :: 0 <= k < |r| ==> r[k].status == stat
    ensures forall k :: 0 <= k < |todos| && todos[k].status == stat ==> todos[k] in r
  {
    Seqs.Filter(todos, (t: TodoItem) => t.status == stat)
  }

  /** A status tab shows exactly the cached items with that status, each as
      often as it is cached, in cache order. */
  lemma StatusTabShowsExactlyThatStatus(todos: seq<TodoItem>, stat: Status)
    ensures Seqs.IsSubsequence(FilterByStatus(todos, stat), todos)
    ensures forall t :: multiset(FilterByStatus(todos, stat))[t]
                        == (if t.status == stat then multiset(todos)[t] else 0)
  {
    Seqs.FilterIsSubsequence(todos, (t: TodoItem) => t.status == stat);
    forall t ensures multiset(FilterByStatus(todos, stat))[t]
                     == (if t.status == stat then multiset(todos)[t] else 0)
    {
      Seqs.FilterMultiplicity(todos, (t: TodoItem) => t.status == stat, t);
    }
  }

  class AppState {
    /** The query's list, or the empty list while it has none. */
    var todos: seq<TodoItem>
    /** The list handed to the list component (`Todotoshow`). */
    var todoToShow: seq<TodoItem>
    var isAddModalOpen: bool
    var isPersian: bool

    constructor ()
      ensures todos == [] && todoToShow == []
      ensures !isAddModalOpen && !isPersian
    {
      todos := [];
      todoToShow := [];
      isAddModalOpen := false;
      isPersian := false;
    }

    /** The query's data changes, and the effect that depends on it runs: a
        non-empty list resets the display to its todo-status items, whatever
        tab was selected; an empty one leaves the display alone. */
    method QueryDataChanged(data: Option<seq<TodoItem>>)
      modifies this
      ensures todos == data.GetOr([])
      ensures todoToShow == if |todos| > 0 then FilterByStatus(todos, Todo) else old(todoToShow)
      ensures isAddModalOpen == old(isAddModalOpen) && isPersian == old(isPersian)
    {
      todos := data.GetOr([]);
      if |todos| > 0 {
        todoToShow := FilterByStatus(todos, Todo);
      }
    }

    /** A status tab is selected (`handletodochange`). */
    method HandleTodoChange(stat: Status)
      modifies this
      ensures todoToShow == FilterByStatus(todos, stat)
      ensures todos == old(todos)
      ensures isAddModalOpen == old(isAddModalOpen) && isPersian == old(isPersian)
    {
      todoToShow := FilterByStatus(todos, stat);
    }

    /** The list component hands back a new list after a drag; it replaces
        the display wholesale. */
    method HandleTodosChange(newTodos: seq<TodoItem>)
      modifies this
      ensures todoToShow == newTodos
      ensures todos == old(todos)
      ensures isAddModalOpen == old(isAddModalOpen) && isPersian == old(isPersian)
    {
      todoToShow := newTodos;
    }

    /** The language button. */
    method ToggleLanguage()
      modifies this
      ensures isPersian == !old(isPersian)
      ensures todos == old(todos) && todoToShow == old(todoToShow)
      ensures isAddModalOpen == old(isAddModalOpen)
    {
      isPersian := !isPersian;
    }

    /** The add button. */
    method OpenAddModal()
      modifies this
      ensures isAddModalOpen
      ensures todos == old(todos) && todoToShow == old(todoToShow) && isPersian == old(isPersian)
    {
      isAddModalOpen := true;
    }

    /** The dialog's `onClose`. */
    method CloseAddModal()
      modifies this
      ensures !isAddModalOpen
      ensures todos == old(todos) && todoToShow == old(todoToShow) && isPersian == old(isPersian)
    {
      isAddModalOpen := false;
    }
  }
}
