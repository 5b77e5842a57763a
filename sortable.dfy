/** `arrayMove(array, from, to)` of the sortable drag-and-drop library, on
    values: a copy of the list in which the element at `from` has been taken
    out and put back in at `to`. */
module Sortable {

  /** The list without its element at index `i`. */
  function RemoveAt<T>(s: seq<T>, i: nat): (r: seq<T>)
    requires i < |s|
    ensures |r| == |s| - 1
    ensures forall k :: 0 <= k < i ==> r[k] == s[k]
    ensures forall k :: i <= k < |r| ==> r[k] == s[k + 1]
  {
    s[..i] + s[i + 1..]
  }

  /** The list with `x` inserted so that it lands at index `i`. */
  function InsertAt<T>(s: seq<T>, i: nat, x: T): (r: seq<T>)
    requires i <= |s|
    ensures |r| == |s| + 1
    ensures r[i] == x
    ensures forall k :: 0 <= k < i ==> r[k] == s[k]
    ensures forall k :: i < k < |r| ==> r[k] == s[k - 1]
  {
    s[..i] + [x] + s[i..]
  }

  /** Taking the element at `from` out of a list and putting it back at `to`:
      the list keeps its length and its elements, the moved element ends up
      at `to`, and deleting it from both lists leaves the same list, so every
      other element keeps its relative order. */
  function ArrayMove<T>(s: seq<T>, from: nat, to: nat): (r: seq<T>)
    requires from < |s| && to < |s|
    ensures |r| == |s|
    ensures r[to] == s[from]
    ensures RemoveAt(r, to) == RemoveAt(s, from)
    ensures multiset(r) == multiset(s)
  {
    var rest := RemoveAt(s, from);
    var r := InsertAt(rest, to, s[from]);
    assert RemoveAt(r, to) == rest;
    assert s == s[..from] + [s[from]] + s[from + 1..];
    assert multiset(s) == multiset(rest) + multiset{s[from]};
    assert r == rest[..to] + [s[from]] + rest[to..];
    assert rest == rest[..to] + rest[to..];
    assert multiset(r) == multiset(rest) + multiset{s[from]};
    r
  }

  /** The element that `ArrayMove` puts at each index, written out as the
      shift it causes: the elements between the two positions move by one
      towards `from`, the rest stay where they were. */
  lemma ArrayMoveAt<T>(s: seq<T>, from: nat, to: nat, k: nat)
    requires from < |s| && to < |s| && k < |s|
    ensures ArrayMove(s, from, to)[k] ==
      if k == to then s[from]
      else if from <= k < to then s[k + 1]
      else if to < k <= from then s[k - 1]
      else s[k]
  {
  }

  /** Moving an element onto its own position changes nothing. */
  lemma ArrayMoveInPlace<T>(s: seq<T>, i: nat)
    requires i < |s|
    ensures ArrayMove(s, i, i) == s
  {
  }
}
