/** The loader behind the todos query: it reads the bundled JSON data, keeps
    the entries that pass a shape check and converts their `time` field to a
    date. */
module GetTodosQuery {
  import Seqs
  import opened Todos

  /** A parsed JSON value. */
  datatype Json =
    | JNull
    | JBool(b: bool)
    | JNumber(n: real)
    | JString(s: string)
    | JArray(items: seq<Json>)
    | JObject(fields: map<string, Json>)

  /** Whether JavaScript treats the value as true in a condition: the falsy
      JSON values are exactly `null`, `false`, `0` and the empty string. */
  function Truthy(v: Json): (t: bool)
    ensures !t <==> v in {JNull, JBool(false), JNumber(0.0), JString("")}
  {
    match v
    case JNull => false
    case JBool(b) => b
    case JNumber(n) => n != 0.0
    case JString(s) => s != ""
    case JArray(_) => true
    case JObject(_) => true
  }

  /** Reading `entry[key]`: the stored value when `entry` is an object that
      has the key, and `undefined` (None) otherwise. None of the keys read
      here names a property of a JSON array, string, number or boolean. */
  function Get(entry: Json, key: string): (r: Option<Json>)
    ensures r.Some? <==> entry.JObject? && key in entry.fields
    ensures r.Some? ==> r.value == entry.fields[key]
  {
    if entry.JObject? && key in entry.fields then Some(entry.fields[key]) else None
  }

  /** The shape check: a truthy entry whose `id` is a number, `description`
      a string, `completed` a boolean, `status` a string (of any value), and
      whose `time` is truthy. Only an object can pass, since no other JSON
      value has these properties. */
  function IsValidEntry(entry: Json): (b: bool)
    ensures b <==> (
      && entry.JObject?
      && "id" in entry.fields && entry.fields["id"].JNumber?
      && "description" in entry.fields && entry.fields["description"].JString?
      && "completed" in entry.fields && entry.fields["completed"].JBool?
      && "status" in entry.fields && entry.fields["status"].JString?
      && "time" in entry.fields && Truthy(entry.fields["time"]))
  {
    && Truthy(entry)
    && Get(entry, "id").Some? && Get(entry, "id").value.JNumber?
    && Get(entry, "description").Some? && Get(entry, "description").value.JString?
    && Get(entry, "completed").Some? && Get(entry, "completed").value.JBool?
    && Get(entry, "status").Some? && Get(entry, "status").value.JString?
    && Get(entry, "time").Some? && Truthy(Get(entry, "time").value)
  }

  /** `new Date(raw)`: date parsing is not modelled, so a date is known only
      by the value it was built from. */
  datatype Date = DateFrom(raw: Json)

  /** `{ ...entry, time: new Date(entry.time) }`: every field of the entry
      other than `time`, and the converted time. */
  datatype LoadedTodo = LoadedTodo(fields: map<string, Json>, time: Date)

  function Load(entry: Json): (r: LoadedTodo)
    requires IsValidEntry(entry)
    ensures r.fields.Keys == entry.fields.Keys - {"time"}
    ensures forall key :: key in r.fields ==> r.fields[key] == entry.fields[key]
    ensures r.time.raw == entry.fields["time"]
  {
    LoadedTodo(entry.fields - {"time"}, DateFrom(entry.fields["time"]))
  }

  /** The JSON entry a loaded todo came from, with its raw time put back. */
  function Unload(t: LoadedTodo): Json {
    JObject(t.fields["time" := t.time.raw])
  }

  /** The conversion touches `time` only: putting the raw time back gives
      the entry that was loaded. */
  lemma UnloadLoad(entry: Json)
    requires IsValidEntry(entry)
    ensures Unload(Load(entry)) == entry
  {
  }

  /** Whether `new Date(v)` throws a TypeError. The constructor converts an
      object or array to a primitive; an array's conversion joins its
      elements, converting each of them to a string in turn. A JSON value is
      never callable, so an own `toString` field leaves no way to convert an
      object: the inherited `valueOf` returns the object itself, and an own
      `valueOf` cannot be called either. Primitives never make it throw. */
  predicate ConversionThrows(v: Json) {
    match v
    case JObject(fields) => "toString" in fields
    case JArray(items) => exists k :: 0 <= k < |items| && ConversionThrows(items[k])
    case _ => false
  }

  /** Whether the `map` step throws on some entry that passed the filter,
      which sends the loader to its `catch` branch. */
  predicate SomeConversionThrows(items: seq<Json>) {
    exists k :: 0 <= k < |items| && IsValidEntry(items[k]) && ConversionThrows(items[k].fields["time"])
  }

  /** The loader: data that is not an array gives no todos, and neither does
      an array with a valid entry whose time cannot be converted (the error
      is caught); otherwise the valid entries, in their order, each with its
      time converted. */
  function FetchTodos(data: Json): (r: seq<LoadedTodo>)
    ensures !data.JArray? ==> r == []
    ensures data.JArray? && SomeConversionThrows(data.items) ==> r == []
    ensures data.JArray? ==> |r| <= |data.items|
  {
    if !data.JArray? || SomeConversionThrows(data.items) then []
    else
      var valid := Seqs.Filter(data.items, IsValidEntry);
      seq(|valid|, k requires 0 <= k < |valid| => Load(valid[k]))
  }

  function Restored(r: seq<LoadedTodo>): seq<Json> {
    seq(|r|, k requires 0 <= k < |r| => Unload(r[k]))
  }

  /** When every time converts, the loaded todos with their times put back
      are exactly the valid entries of the source array, in source order:
      every valid entry is kept, every kept entry is valid and came from the
      source. */
  lemma FetchKeepsValidEntriesInOrder(items: seq<Json>)
    ensures !SomeConversionThrows(items) ==> (
      && Restored(FetchTodos(JArray(items))) == Seqs.Filter(items, IsValidEntry)
      && Seqs.IsSubsequence(Restored(FetchTodos(JArray(items))), items)
      && (forall k :: 0 <= k < |items| && IsValidEntry(items[k]) ==>
            items[k] in Restored(FetchTodos(JArray(items))))
      && (forall e :: e in Restored(FetchTodos(JArray(items))) ==> e in items && IsValidEntry(e)))
  {
    if !SomeConversionThrows(items) {
      var valid := Seqs.Filter(items, IsValidEntry);
      var r := FetchTodos(JArray(items));
      forall k | 0 <= k < |valid| ensures Restored(r)[k] == valid[k] {
        UnloadLoad(valid[k]);
      }
      Seqs.FilterIsSubsequence(items, IsValidEntry);
    }
  }

  /** A valid entry whose time is an object with its own `toString` field
      empties the whole list, however many other valid entries there are;
      so does an array time holding such an object. */
  lemma UnconvertibleTimeEmptiesTheList(good: Json)
    requires IsValidEntry(good)
    ensures var bad := JObject(map[
              "id" := JNumber(2.0), "description" := JString("Write report"),
              "completed" := JBool(false), "status" := JString("todo"),
              "time" := JObject(map["valueOf" := JNumber(0.0), "toString" := JNumber(0.0)])]);
      FetchTodos(JArray([good, bad])) == []
    ensures var bad := JObject(map[
              "id" := JNumber(2.0), "description" := JString("Write report"),
              "completed" := JBool(false), "status" := JString("todo"),
              "time" := JArray([JString("2024"), JObject(map["toString" := JNull])])]);
      FetchTodos(JArray([bad, good])) == []
  {
    var bad := JObject(map[
      "id" := JNumber(2.0), "description" := JString("Write report"),
      "completed" := JBool(false), "status" := JString("todo"),
      "time" := JObject(map["valueOf" := JNumber(0.0), "toString" := JNumber(0.0)])]);
    assert IsValidEntry(bad) && ConversionThrows(bad.fields["time"]);
    assert SomeConversionThrows([good, bad]) by { assert [good, bad][1] == bad; }
    var bad2 := JObject(map[
      "id" := JNumber(2.0), "description" := JString("Write report"),
      "completed" := JBool(false), "status" := JString("todo"),
      "time" := JArray([JString("2024"), JObject(map["toString" := JNull])])]);
    var time := bad2.fields["time"];
    assert ConversionThrows(time.items[1]);
    assert IsValidEntry(bad2) && ConversionThrows(time);
    assert SomeConversionThrows([bad2, good]) by { assert [bad2, good][0] == bad2; }
  }

  /** The status is only checked to be a string: a value outside the three
      statuses passes. */
  lemma UnknownStatusIsKept()
    ensures IsValidEntry(JObject(map[
      "id" := JNumber(1.0), "description" := JString("Write report"),
      "completed" := JBool(false), "status" := JString("archived"),
      "time" := JString("2024-01-01")]))
  {
  }

  /** An entry without a boolean `completed` is dropped, although a todo has
      no such field. */
  lemma MissingCompletedIsDropped()
    ensures !IsValidEntry(JObject(map[
      "id" := JNumber(1.0), "description" := JString("Write report"),
      "status" := JString("todo"), "time" := JString("2024-01-01")]))
  {
  }

  /** A falsy `time` (here the number 0) drops the entry, and so does a null
      entry. */
  lemma FalsyEntriesAreDropped()
    ensures !IsValidEntry(JObject(map[
      "id" := JNumber(1.0), "description" := JString("Write report"),
      "completed" := JBool(true), "status" := JString("todo"),
      "time" := JNumber(0.0)]))
    ensures !IsValidEntry(JNull)
  {
  }
}
