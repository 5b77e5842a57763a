# Todo list: drag classification, cache updaters and view state, in Dafny

This project models the logic of a browser todo list. Items have an id, a
description, a status (`todo`, `in_progress` or `completed`) and a creation
time. The UI shows one status tab at a time. The user can drag items up and
down to reorder the list. Dragging an item far enough to the right or left
moves it one status column in that direction.

What is modelled:

- **Drag end** (`todo_list.dfy`, module `TodoList`). `DragEndOutcome` decides
  what a finished drag does:
  - nothing happens when there is no drop target or the dragged id is not in
    the list;
  - a status change happens when the sideways displacement passes the
    threshold (a right table and a left table). It sends one update request
    and returns the list with the item replaced by id;
  - otherwise the list is reordered by dnd-kit's `arrayMove` when the item was
    dropped on another item.

  The class `TodoListView` holds the component's `activeTodo` state and works
  the new status out step by step, as the handler does. Its result is proved
  equal to `DragEndOutcome`.
- **`arrayMove`** (`sortable.dfy`, module `Sortable`). It takes the element
  out of a list and inserts it again at the target index.
- **Cache updaters** (`update_todo_mutation.dfy`, `add_todo_mutation.dfy`,
  `delete_todo_mutation.dfy`). Each `onSuccess` callback is a function from
  an optional cached list to a list: replace by id, append, and filter out
  by id. The simulated server calls are functions too: update echoes its
  argument, and add builds a todo from the payload.
- **Loader** (`get_todos_query.dfy`, module `GetTodosQuery`). It reads a
  JSON value. Data that is not an array gives `[]`. Otherwise the entries
  that pass the shape check are kept, in order, with `time` converted. A
  valid entry whose time `new Date(...)` cannot convert makes the whole
  load fail, and the caught error gives `[]` too.
- **Application shell** (`app.dfy`, class `App.AppState`). It holds the
  displayed list (`Todotoshow`, here `todoToShow`), the add-dialog flag and
  the language flag. The effect that resets the display when the query data
  changes is modelled too.
- **Add dialog** (`add_todo_modal.dfy`, class `AddTodoModal.AddTodoForm`). It
  holds the form's description and status. The module also models the
  ECMAScript `trim`, the submit payload, the disabled condition, and the
  reset after a successful mutation.
- Shared pieces: `todos.dfy` holds the types and the id lookups (`find`,
  `findIndex`, replace by id, count by id). `seqs.dfy` models `filter` and
  proves that its result is an order-preserving subsequence of its input.

An edge drag that maps to the same status (a completed item dragged right, a
todo item dragged left) is not a status change. The code tests
`newStatus !== activeTodo.status` (src/components/TodoList.tsx:95), so such a
drag falls through to reordering (`TodoList.SameStatusEdgeDragReorders`).

Two consequences of the code are visible in the model:
- A reorder changes only the displayed list, never the cache.
- Every change to a non-empty cached list resets the display to the todo tab
  (`App.AppState.QueryDataChanged`), whichever tab was selected. A change
  that empties the cache, such as deleting the last todo, leaves the display
  alone, so the deleted item stays on screen.

## Model

| member | source | states |
|---|---|---|
| `Todos.IndexOfId` | src/components/TodoList.tsx:109-110 | `findIndex` by id: -1 exactly when no entry has the id; otherwise the entry at the index has the id and no earlier entry does |
| `Todos.FindById` | src/components/TodoList.tsx:45 | `find` by id: none exactly when no entry has the id; otherwise an entry of the list with that id, namely the first one |
| `Todos.ReplaceById` | src/components/TodoList.tsx:100-102 | same length; every entry with the replacement's id becomes the replacement; every other entry is unchanged at its position |
| `Todos.CountId` | src/store/useDeleteTodoMutation.ts:23 | the number of entries carrying an id is at most the length, and zero exactly when no entry carries it |
| `Todos.CountIdAppend` | src/store/useAddTodoMutation.ts:31 | appending an entry adds one to the count of its own id and nothing to any other id's count |
| `Seqs.Filter` | src/store/useDeleteTodoMutation.ts:23 | `filter`: every survivor comes from the input and passes the test; every input element that passes the test survives |
| `Seqs.FilterIsSubsequence` | src/store/useGetTodosQuery.ts:17-25 | a filter result is an order-preserving subsequence of its input |
| `Seqs.FilterMultiplicity` | src/App.tsx:22 | a filter keeps every occurrence of a passing value and no occurrence of a failing one |
| `Seqs.FilterKeepingAll` | src/store/useDeleteTodoMutation.ts:23 | a filter that rejects nothing returns its input |
| `Seqs.FilterIdempotent` | src/store/useDeleteTodoMutation.ts:23 | filtering twice by the same test equals filtering once |
| `Sortable.RemoveAt` | src/components/TodoList.tsx:112 | one shorter; elements before the index stay, elements after it shift down by one |
| `Sortable.InsertAt` | src/components/TodoList.tsx:112 | one longer; the new element is at the index, the elements after it shift up by one |
| `Sortable.ArrayMove` | src/components/TodoList.tsx:112 | same length and same multiset (a permutation); the moved element sits at the target index; removing it from both lists leaves the same list, so the others keep their relative order |
| `Sortable.ArrayMoveAt` | src/components/TodoList.tsx:112 | independent index formula: the elements between the two positions shift one step towards the source, the rest stay in place |
| `Sortable.ArrayMoveInPlace` | src/components/TodoList.tsx:108-112 | moving an element onto its own index leaves the list unchanged |
| `TodoList.RightOf` | src/components/TodoList.tsx:67-78 | the right-drag table moves one column to the right, staying in the last column |
| `TodoList.LeftOf` | src/components/TodoList.tsx:79-91 | the left-drag table moves one column to the left, staying in the first column |
| `TodoList.DraggedStatus` | src/components/TodoList.tsx:63-92 | past the threshold to the right the right table applies; otherwise, past it to the left, the left table applies; within the threshold on both sides, exactly at it included, the status is kept |
| `TodoList.ColumnDeterminesStatus` | src/components/TodoList.tsx:66-92 | distinct statuses sit in distinct columns; the right table keeps only a completed item in place and the left table only a todo item |
| `TodoList.LeftUndoesRight` | src/components/TodoList.tsx:66-92 | a left drag undoes a right drag that changed the status, and the other way round |
| `TodoList.StatusChangesIff` | src/components/TodoList.tsx:63-95 | the status changes iff the drag passes the threshold to the right of a non-completed item, or to the left (and not to the right) of a non-todo item |
| `TodoList.ThresholdExamples` | src/components/TodoList.tsx:61-92 | threshold 100: dx 150 moves todo to in progress; dx -50 keeps in progress; dx exactly 100 keeps todo |
| `TodoList.DragEndOutcome` | src/components/TodoList.tsx:49-115 | no target or unknown active id gives no change. A status change keeps the length, gives every entry with the active id the request, leaves every other entry unchanged, and issues a request equal to the found item with only a different status. A reorder happens only onto a different id; it is a permutation with the item at the target index and the others in relative order |
| `TodoList.DragEndClassification` | src/components/TodoList.tsx:53-114 | with a target and a known item: status change iff the drag asks for a different status; else reorder iff dropped on another id; else nothing |
| `TodoList.StatusChangeFollowsTables` | src/components/TodoList.tsx:66-97 | the request's status is the right table's entry when dx > threshold, and otherwise the left table's (with dx < -threshold) |
| `TodoList.SameStatusEdgeDragReorders` | src/components/TodoList.tsx:95-114 | a completed item dragged right or a todo item dragged left onto another item is reordered, not treated as handled |
| `TodoList.WithinThresholdNeverChangesStatus` | src/components/TodoList.tsx:66-114 | within the threshold no status change occurs, and a drop onto the dragged item itself changes nothing |
| `TodoList.StatusChangeAgreesWithCache` | src/components/TodoList.tsx:96-103 | the list a status change hands to the parent equals what the update mutation's cache updater computes from the same list and the echoed request |
| `TodoList.TodoListView.constructor` | src/components/TodoList.tsx:32-34 | the component starts with no dragged item |
| `TodoList.TodoListView.Rerender` | src/components/TodoList.tsx:32-34 | new props replace the list; the dragged item survives |
| `TodoList.TodoListView.HandleDragStart` | src/components/TodoList.tsx:44-47 | the dragged item becomes the first entry with the active id, or none |
| `TodoList.TodoListView.HandleDragEnd` | src/components/TodoList.tsx:49-115 | clears the dragged item on every path; the outcome it computes through the switch statements equals `DragEndOutcome` |
| `UpdateTodoMutation.UpdateCache` | src/store/useUpdateTodoMutation.ts:21-29 | an absent cache becomes `[updatedTodo]`; a present one keeps its length |
| `UpdateTodoMutation.UpdateCacheAt` | src/store/useUpdateTodoMutation.ts:26-28 | entries with the updated id become the updated todo; entries with other ids are unchanged at the same position |
| `UpdateTodoMutation.UpdateUnknownIdIsIdentity` | src/store/useUpdateTodoMutation.ts:26-28 | when no id matches, the cache is unchanged: an update never inserts |
| `UpdateTodoMutation.UpdateIdempotent` | src/store/useUpdateTodoMutation.ts:26-28 | applying the same update twice equals applying it once |
| `UpdateTodoMutation.UpdateMutationStoresRequest` | src/store/useUpdateTodoMutation.ts:5-28 | the server echoes its argument, so after success the request is in the cache and every cached entry with its id equals it |
| `AddTodoMutation.AddTodo` | src/store/useAddTodoMutation.ts:5-19 | the created todo carries the payload's description and status unchanged, plus the supplied id and time |
| `AddTodoMutation.AddToCache` | src/store/useAddTodoMutation.ts:26-32 | one longer; the new todo is last; all old entries keep their values and order; an absent cache becomes `[newTodo]` |
| `AddTodoMutation.AddAllowsDuplicateIds` | src/store/useAddTodoMutation.ts:11-31 | there is no duplicate-id check: adding an already cached id leaves at least two entries with it |
| `AddTodoMutation.AddToSingleEntryCache` | src/components/__tests__/AddTodoModal.test.tsx:82-111 | adding to a one-entry cache gives two entries, the second with the submitted description |
| `DeleteTodoMutation.DeleteFromCache` | src/store/useDeleteTodoMutation.ts:18-24 | an absent cache becomes `[]`; no entry with the deleted id remains |
| `DeleteTodoMutation.DeleteKeepsOthers` | src/store/useDeleteTodoMutation.ts:23 | the result is an order-preserving subsequence; every entry with another id keeps its multiplicity; entries with the id have none |
| `DeleteTodoMutation.DeleteUnknownIsIdentity` | src/store/useDeleteTodoMutation.ts:23 | deleting an unknown id leaves the list unchanged |
| `DeleteTodoMutation.DeleteIdempotent` | src/store/useDeleteTodoMutation.ts:23 | deleting the same id twice equals deleting it once |
| `DeleteTodoMutation.DeleteLength` | src/store/useDeleteTodoMutation.ts:23 | the length drops by exactly the number of entries carrying the id |
| `GetTodosQuery.Truthy` | src/store/useGetTodosQuery.ts:19-24 | the falsy JSON values are exactly `null`, `false`, `0` and the empty string |
| `GetTodosQuery.Get` | src/store/useGetTodosQuery.ts:19-24 | a field read yields a value exactly when the entry is an object holding that key, and then it is the stored value; `undefined` otherwise |
| `GetTodosQuery.IsValidEntry` | src/store/useGetTodosQuery.ts:18-25 | an entry passes exactly when it is an object whose `id` is a number, `description` a string, `completed` a boolean, `status` a string, and whose `time` is present and truthy |
| `GetTodosQuery.Load` | src/store/useGetTodosQuery.ts:26-29 | the loaded todo keeps every field other than `time` with its value, and its date is built from the entry's `time` |
| `GetTodosQuery.UnloadLoad` | src/store/useGetTodosQuery.ts:26-29 | the conversion changes only `time`: putting the raw time back gives the original entry |
| `GetTodosQuery.FetchTodos` | src/store/useGetTodosQuery.ts:10-35 | non-array data yields `[]`; a valid entry whose time cannot be converted yields `[]` through the `catch` branch; otherwise no more todos than entries |
| `GetTodosQuery.FetchKeepsValidEntriesInOrder` | src/store/useGetTodosQuery.ts:17-31 | when every valid entry's time converts, the result with times put back equals the valid entries in source order: an order-preserving subsequence holding every valid entry and only valid entries |
| `GetTodosQuery.UnconvertibleTimeEmptiesTheList` | src/store/useGetTodosQuery.ts:26-34 | a valid entry whose time is an object with its own `toString` field, or an array holding one, empties the whole list, other valid entries included |
| `GetTodosQuery.UnknownStatusIsKept` | src/store/useGetTodosQuery.ts:23 | the status is only checked to be a string, so `"archived"` passes |
| `GetTodosQuery.MissingCompletedIsDropped` | src/store/useGetTodosQuery.ts:22 | an entry without a boolean `completed` is dropped, though a todo has no such field |
| `GetTodosQuery.FalsyEntriesAreDropped` | src/store/useGetTodosQuery.ts:19-24 | a null entry is dropped, and so is an entry whose `time` is falsy (0) |
| `App.FilterByStatus` | src/App.tsx:21-23 | every shown item has the selected status; every cached item with that status is shown |
| `App.StatusTabShowsExactlyThatStatus` | src/App.tsx:21-23 | a tab shows exactly the cached items of its status, each as often as cached, in cache order |
| `App.AppState.constructor` | src/App.tsx:10-12 | empty display, dialog closed, English tips |
| `App.AppState.QueryDataChanged` | src/App.tsx:8-19 | the cache becomes the data or `[]`; a non-empty cache resets the display to its todo-status items whatever tab was selected; an empty one leaves the display alone |
| `App.AppState.HandleTodoChange` | src/App.tsx:21-23 | the display becomes the cached items of the selected status |
| `App.AppState.HandleTodosChange` | src/App.tsx:26-28 | the list handed back by the list component replaces the display wholesale |
| `App.AppState.ToggleLanguage` | src/App.tsx:108 | negates `isPersian` and changes nothing else, so two toggles restore it |
| `App.AppState.OpenAddModal` | src/App.tsx:131 | the add button opens the dialog |
| `App.AppState.CloseAddModal` | src/App.tsx:141 | the dialog's `onClose` closes it |
| `AddTodoModal.SkipWhitespace` | src/components/AddTodoModal.tsx:17 | the index of the first non-whitespace character from a given point on (or the length), with only whitespace skipped |
| `AddTodoModal.SkipWhitespaceBack` | src/components/AddTodoModal.tsx:17 | scanning down to a lower bound, the end of the text once trailing whitespace is dropped; only whitespace is skipped and the character before the end is not whitespace |
| `AddTodoModal.Trim` | src/components/AddTodoModal.tsx:17 | empty exactly when the input is all whitespace; otherwise it neither starts nor ends with whitespace |
| `AddTodoModal.TrimCutsOnlyWhitespace` | src/components/AddTodoModal.tsx:17-20 | the trimmed text is a contiguous middle slice of the input, and everything cut off before and after it is whitespace |
| `AddTodoModal.TrimIdempotent` | src/components/AddTodoModal.tsx:17-20 | trimming twice equals trimming once |
| `AddTodoModal.SubmitPayload` | src/components/AddTodoModal.tsx:15-20 | no mutation when the description is blank after trimming; otherwise the payload is the trimmed description plus the selected status |
| `AddTodoModal.SubmitDisabled` | src/components/AddTodoModal.tsx:88 | the button is disabled exactly while a mutation is pending or when the description is all whitespace |
| `AddTodoModal.SubmitEnabledIffPayload` | src/components/AddTodoModal.tsx:88 | the submit button is enabled iff no mutation is pending and a submit would send a payload |
| `AddTodoModal.InitialFormIsDisabled` | src/components/__tests__/AddTodoModal.test.tsx:40-48 | a fresh, empty form cannot be submitted |
| `AddTodoModal.SubmittedTodoIsAppended` | src/components/AddTodoModal.tsx:19-20 | a successful submit appends one todo, last, with the trimmed description and selected status, leaving the old entries in order |
| `AddTodoModal.AddTodoForm.constructor` | src/components/AddTodoModal.tsx:11-12 | the form starts with an empty description and status todo |
| `AddTodoModal.AddTodoForm.SetDescription` | src/components/AddTodoModal.tsx:54 | the description field's change handler sets only the description |
| `AddTodoModal.AddTodoForm.SetStatus` | src/components/AddTodoModal.tsx:69 | the select's change handler sets only the status |
| `AddTodoModal.AddTodoForm.HandleSubmit` | src/components/AddTodoModal.tsx:15-20 | the payload handed to the mutation is `SubmitPayload` of the current form; the form is not changed |
| `AddTodoModal.AddTodoForm.MutationSettled` | src/components/AddTodoModal.tsx:19-28 | success resets the description and status to todo and calls `onClose` once; failure changes nothing and does not call it |

## Left out

- Rendering (JSX, styles, the bilingual tip texts, the drag overlay markup), the loading and error screens of `src/App.tsx`, and the dialog's `isOpen` render gate: presentation only.
- `src/components/SortableTodoItem.tsx`: a confirm dialog and a delete button around the delete mutation. Its cache effect is `DeleteTodoMutation.DeleteFromCache`.
- Delays, promises, retries and React Query's caching: each `onSuccess` updater is a synchronous function on an optional list, and the order in which pending mutations settle is not modelled. The pending flag of the add mutation is a parameter of `SubmitDisabled`.
- The threshold `window.innerWidth * 0.1` (floating point and a browser global) is a `real` parameter. The displacement is a `real`.
- Ids from `Date.now()` and times from `new Date()` are parameters. Date parsing in the loader is opaque: a date is known only by the JSON value it was built from.
- dnd-kit's sensors and collision detection. `TodoList.DragEndOutcome`: requires a present drop target to be an item of the list. dnd-kit only reports registered items as targets, so the `findIndex` result of -1 for the target is not modelled.
- The bundled data is taken as `JSON.parse` reads it: a `__proto__` key is an ordinary field. A bundler that turns the file into an object literal would make such a key set the prototype instead, and that is not modelled.
- Inside the loader's `try`, only `new Date(...)` can throw; field reads and the spread cannot. `GetTodosQuery.ConversionThrows` says when the conversion throws. JSON has no NaN, so `Truthy` needs no case for it.
- The loader's result is not converted to `TodoItem`, since its status is an unchecked string. The shell works on `TodoItem` lists.
- `UpdateTodoMutation.UpdateTodo` (the echoing server call) has no contract of its own. What it implies is stated by `UpdateTodoMutation.UpdateMutationStoresRequest` and `TodoList.StatusChangeAgreesWithCache`.
- The shell's effect runs when the query's list changes identity. `App.AppState.QueryDataChanged` models one such change; React's scheduling of effects is not modelled.
- Logging to the console.
