/** The shared types of the todo list (a three-value status and the todo
    record) and the lookups by id that the components perform on lists of
    todos. */
module Todos {

  /** The three columns an item can be in. */
  datatype Status = Todo | InProgress | Completed

  /** A creation timestamp; its calendar meaning plays no part in the model. */
  type Time = int

  datatype TodoItem = TodoItem(id: int, description: string, status: Status, time: Time)

  datatype Option<T> = None | Some(value: T) {
    /** The wrapped value, or `default` when there is none. */
    function GetOr(default: T): T {
      match this
      case Some(v) => v
      case None => default
    }
  }

  /** Some entry of `s` carries `id`. */
  predicate HasId(s: seq<TodoItem>, id: int) {
    exists k :: 0 <= k < |s| && s[k].id == id
  }

  /** `findIndex(item => item.id === id)`: the first index holding `id`, or
      -1 when no entry carries it. */
  function IndexOfId(s: seq<TodoItem>, id: int): (i: int)
    ensures -1 <= i < |s|
    ensures i == -1 <==> !HasId(s, id)
    ensures 0 <= i ==> s[i].id == id && forall k :: 0 <= k < i ==> s[k].id != id
    decreases |s|
  {
    if s == [] then -1
    else if s[0].id == id then 0
    else
      var j := IndexOfId(s[1..], id);
      assert forall k :: 1 <= k < |s| ==> s[k] == s[1..][k - 1];
      if j == -1 then -1 else j + 1
  }

  /** `find(todo => todo.id === id)`: the first entry carrying `id`. */
  function FindById(s: seq<TodoItem>, id: int): (r: Option<TodoItem>)
    ensures r.None? <==> !HasId(s, id)
    ensures r.Some? ==> r.value.id == id && r.value in s
    ensures r.Some? ==> r.value == s[IndexOfId(s, id)]
  {
    var i := IndexOfId(s, id);
    if i < 0 then None else Some(s[i])
  }

  /** `s.map(t => t.id === u.id ? u : t)`: every entry carrying `u`'s id is
      replaced by `u`. */
  function ReplaceById(s: seq<TodoItem>, u: TodoItem): (r: seq<TodoItem>)
    ensures |r| == |s|
    ensures forall k :: 0 <= k < |s| && s[k].id == u.id ==> r[k] == u
    ensures forall k :: 0 <= k < |s| && s[k].id != u.id ==> r[k] == s[k]
  {
    seq(|s|, k requires 0 <= k < |s| => if s[k].id == u.id then u else s[k])
  }

  /** The number of entries of `s` that carry `id`. */
  function CountId(s: seq<TodoItem>, id: int): (n: nat)
    ensures n <= |s|
    ensures n == 0 <==> !HasId(s, id)
    decreases |s|
  {
    if s == [] then 0
    else
      assert forall k :: 1 <= k < |s| ==> s[k] == s[1..][k - 1];
      (if s[0].id == id then 1 else 0) + CountId(s[1..], id)
  }

  /** Appending one entry adds one to the count of its id and nothing to
      the count of any other id. */
  lemma {:induction false} CountIdAppend(s: seq<TodoItem>, t: TodoItem, id: int)
    ensures CountId(s + [t], id) == CountId(s, id) + (if t.id == id then 1 else 0)
    decreases |s|
  {
    if s != [] {
      assert (s + [t])[1..] == s[1..] + [t];
      CountIdAppend(s[1..], t, id);
    }
  }
}
