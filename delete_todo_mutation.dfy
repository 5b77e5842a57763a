/** The delete mutation's cache updater: the entries carrying the deleted id
    are filtered out of the cached list. */
module DeleteTodoMutation {
  import opened Todos
  import Seqs

  /** The `onSuccess` updater: an absent cache becomes empty; otherwise the
      entries with the deleted id are dropped and the rest kept in order. */
  function DeleteFromCache(oldTodos: Option<seq<TodoItem>>, deletedId: int): (r: seq<TodoItem>)
    ensures oldTodos.None? ==> r == []
    ensures !HasId(r, deletedId)
  {
    match oldTodos
    case None => []
    case Some(todos) => Seqs.Filter(todos, (t: TodoItem) => t.id != deletedId)
  }

  /** Every entry with another id survives, as often as it was there and in
      its original order. */
  lemma DeleteKeepsOthers(todos: seq<TodoItem>, deletedId: int)
    ensures Seqs.IsSubsequence(DeleteFromCache(Some(todos), deletedId), todos)
    ensures forall t :: multiset(DeleteFromCache(Some(todos), deletedId))[t]
                          == (if t.id == deletedId then 0 else multiset(todos)[t])
  {
    Seqs.FilterIsSubsequence(todos, (t: TodoItem) => t.id != deletedId);
    forall t ensures multiset(DeleteFromCache(Some(todos), deletedId))[t]
                     == (if t.id == deletedId then 0 else multiset(todos)[t])
    {
      Seqs.FilterMultiplicity(todos, (t: TodoItem) => t.id != deletedId, t);
    }
  }

  /** Deleting an id that no entry carries leaves the list as it was. */
  lemma DeleteUnknownIsIdentity(todos: seq<TodoItem>, deletedId: int)
    requires !HasId(todos, deletedId)
    ensures DeleteFromCache(Some(todos), deletedId) == todos
  {
    Seqs.FilterKeepingAll(todos, (t: TodoItem) => t.id != deletedId);
  }

  /** Deleting the same id twice gives what deleting it once gives. */
  lemma DeleteIdempotent(oldTodos: Option<seq<TodoItem>>, deletedId: int)
    ensures DeleteFromCache(Some(DeleteFromCache(oldTodos, deletedId)), deletedId)
         == DeleteFromCache(oldTodos, deletedId)
  {
    DeleteUnknownIsIdentity(DeleteFromCache(oldTodos, deletedId), deletedId);
  }

  /** The list shrinks by exactly the number of entries carrying the id. */
  lemma {:induction false} DeleteLength(todos: seq<TodoItem>, deletedId: int)
    ensures |DeleteFromCache(Some(todos), deletedId)| == |todos| - CountId(todos, deletedId)
    decreases |todos|
  {
    if todos != [] {
      DeleteLength(todos[1..], deletedId);
    }
  }
}
