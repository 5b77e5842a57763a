/** The update mutation: a simulated PUT that echoes the todo it is given,
    and the cache updater that runs when it succeeds. */
module UpdateTodoMutation {
  import opened Todos

  /** The simulated server call: it accepts the todo and returns it as is. */
  function UpdateTodo(updatedTodo: TodoItem): TodoItem {
    updatedTodo
  }

  /** The `onSuccess` updater of the cached list: an absent cache becomes the
      single updated todo; otherwise every entry with the updated id is
      replaced by it and the rest is left alone. */
  function UpdateCache(oldTodos: Option<seq<TodoItem>>, updatedTodo: TodoItem): (r: seq<TodoItem>)
    ensures oldTodos.None? ==> r == [updatedTodo]
    ensures oldTodos.Some? ==> |r| == |oldTodos.value|
  {
    match oldTodos
    case None => [updatedTodo]
    case Some(todos) => ReplaceById(todos, updatedTodo)
  }

  /** Position by position, the updated cache holds the new todo exactly where
      the old one held its id, and the old entry everywhere else. */
  lemma UpdateCacheAt(todos: seq<TodoItem>, updatedTodo: TodoItem, k: nat)
    requires k < |todos|
    ensures |UpdateCache(Some(todos), updatedTodo)| == |todos|
    ensures UpdateCache(Some(todos), updatedTodo)[k] ==
      if todos[k].id == updatedTodo.id then updatedTodo else todos[k]
  {
  }

  /** An update never inserts: when no entry carries the id, the cache is
      returned unchanged. */
  lemma UpdateUnknownIdIsIdentity(todos: seq<TodoItem>, updatedTodo: TodoItem)
    requires !HasId(todos, updatedTodo.id)
    ensures UpdateCache(Some(todos), updatedTodo) == todos
  {
  }

  /** Applying the same update twice gives what applying it once gives. */
  lemma UpdateIdempotent(oldTodos: Option<seq<TodoItem>>, updatedTodo: TodoItem)
    ensures UpdateCache(Some(UpdateCache(oldTodos, updatedTodo)), updatedTodo)
         == UpdateCache(oldTodos, updatedTodo)
  {
  }

  /** A successful update mutation puts the todo it was given into the cache:
      since the server echoes its argument, every entry with that id becomes
      the request, and the request is present whenever its id was. */
  lemma UpdateMutationStoresRequest(oldTodos: Option<seq<TodoItem>>, request: TodoItem)
    requires oldTodos.Some? ==> HasId(oldTodos.value, request.id)
    ensures request in UpdateCache(oldTodos, UpdateTodo(request))
    ensures forall t :: t in UpdateCache(oldTodos, UpdateTodo(request)) && t.id == request.id ==> t == request
  {
  }
}
