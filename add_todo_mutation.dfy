/** The add mutation: a simulated POST that turns the form's payload into a
    todo with a fresh id and a creation time, and the cache updater that runs
    when it succeeds. */
module AddTodoMutation {
  import opened Todos

  /** What the form sends: a todo without its id and creation time. */
  datatype NewTodo = NewTodo(description: string, status: Status)

  /** The simulated server call. The id (a clock reading in milliseconds) and
      the creation time are supplied by the caller. */
  function AddTodo(payload: NewTodo, id: int, now: Time): (t: TodoItem)
    ensures t.description == payload.description && t.status == payload.status
    ensures t.id == id && t.time == now
  {
    TodoItem(id, payload.description, payload.status, now)
  }

  /** The `onSuccess` updater of the cached list: the new todo is appended,
      and an absent cache becomes the new todo alone. */
  function AddToCache(oldTodos: Option<seq<TodoItem>>, newTodo: TodoItem): (r: seq<TodoItem>)
    ensures |r| == |oldTodos.GetOr([])| + 1
    ensures r[|r| - 1] == newTodo
    ensures r[..|r| - 1] == oldTodos.GetOr([])
  {
    match oldTodos
    case None => [newTodo]
    case Some(todos) => todos + [newTodo]
  }

  /** No check for a clashing id is made: adding a todo whose id is already
      cached leaves two or more entries with that id. */
  lemma AddAllowsDuplicateIds(todos: seq<TodoItem>, newTodo: TodoItem)
    requires HasId(todos, newTodo.id)
    ensures CountId(AddToCache(Some(todos), newTodo), newTodo.id) >= 2
  {
    CountIdAppend(todos, newTodo, newTodo.id);
  }

  /** Adding a todo to a one-entry cache gives two entries, the second of
      which carries the submitted description. */
  lemma AddToSingleEntryCache(first: TodoItem, payload: NewTodo, id: int, now: Time)
    ensures var r := AddToCache(Some([first]), AddTodo(payload, id, now));
      |r| == 2 && r[0] == first && r[1].description == payload.description
  {
  }
}
