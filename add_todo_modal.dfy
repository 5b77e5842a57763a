/** The add-todo dialog: a form holding a description and a status, which on
    submit sends the trimmed description and the status to the add mutation,
    and resets itself and closes once that mutation succeeds. */
module AddTodoModal {
  import opened Todos
  import AddTodoMutation

  /** The characters ECMAScript's `String.prototype.trim` removes: its
      WhiteSpace and LineTerminator code points. */
  const Whitespace: set<char> := {
    '\t', '\n', '\U{B}', '\U{C}', '\r', ' ', '\U{A0}', '\U{1680}',
    '\U{2000}', '\U{2001}', '\U{2002}', '\U{2003}', '\U{2004}', '\U{2005}',
    '\U{2006}', '\U{2007}', '\U{2008}', '\U{2009}', '\U{200A}',
    '\U{2028}', '\U{2029}', '\U{202F}', '\U{205F}', '\U{3000}', '\U{FEFF}'
  }

  predicate IsWhitespace(c: char) {
    c in Whitespace
  }

  /** The index of the first character at or after `k` that is not
      whitespace, or the length of `s` when there is none. */
  function SkipWhitespace(s: string, k: nat): (i: nat)
    requires k <= |s|
    ensures k <= i <= |s|
    ensures forall m :: k <= m < i ==> IsWhitespace(s[m])
    ensures i < |s| ==> !IsWhitespace(s[i])
    decreases |s| - k
  {
    if k < |s| && IsWhitespace(s[k]) then SkipWhitespace(s, k + 1) else k
  }

  /** Scanning down from `k` to no lower than `lo`: the end of what is left
      once the whitespace before `k` is dropped. */
  function SkipWhitespaceBack(s: string, lo: nat, k: nat): (j: nat)
    requires lo <= k <= |s|
    ensures lo <= j <= k
    ensures forall m :: j <= m < k ==> IsWhitespace(s[m])
    ensures lo < j ==> !IsWhitespace(s[j - 1])
    decreases k
  {
    if lo < k && IsWhitespace(s[k - 1]) then SkipWhitespaceBack(s, lo, k - 1) else k
  }

  /** `s.trim()`: the part of `s` between its leading and its trailing
      whitespace. It is empty exactly when `s` is all whitespace; otherwise it
      neither starts nor ends with whitespace. */
  function Trim(s: string): (r: string)
    ensures r == [] <==> forall i :: 0 <= i < |s| ==> IsWhitespace(s[i])
    ensures r != [] ==> !IsWhitespace(r[0]) && !IsWhitespace(r[|r| - 1])
  {
    var lo := SkipWhitespace(s, 0);
    s[lo..SkipWhitespaceBack(s, lo, |s|)]
  }

  /** Only whitespace is cut off, at either end: the trimmed string is the
      middle part of the original between two all-whitespace ends. */
  lemma TrimCutsOnlyWhitespace(s: string)
    ensures exists lo, hi :: (
              && 0 <= lo <= hi <= |s| && Trim(s) == s[lo..hi]
              && (forall i :: 0 <= i < lo ==> IsWhitespace(s[i]))
              && (forall i :: hi <= i < |s| ==> IsWhitespace(s[i])))
  {
    var lo := SkipWhitespace(s, 0);
    var hi := SkipWhitespaceBack(s, lo, |s|);
    assert Trim(s) == s[lo..hi];
  }

  /** Trimming twice is trimming once. */
  lemma TrimIdempotent(s: string)
    ensures Trim(Trim(s)) == Trim(s)
  {
  }

  /** What a submit sends: nothing when the description is blank, and
      otherwise the trimmed description with the selected status. */
  function SubmitPayload(description: string, status: Status): (p: Option<AddTodoMutation.NewTodo>)
    ensures p.None? <==> forall i :: 0 <= i < |description| ==> IsWhitespace(description[i])
    ensures p.Some? ==> p.value.description == Trim(description) && p.value.status == status
  {
    var trimmed := Trim(description);
    if trimmed == [] then None else Some(AddTodoMutation.NewTodo(trimmed, status))
  }

  /** The submit button's `disabled` state: disabled while a mutation is
      pending and whenever the description is blank. */
  function SubmitDisabled(isPending: bool, description: string): (d: bool)
    ensures d <==> isPending || forall i :: 0 <= i < |description| ==> IsWhitespace(description[i])
  {
    isPending || Trim(description) == []
  }

  /** The button is enabled exactly when no mutation is pending and a submit
      would send a payload. */
  lemma SubmitEnabledIffPayload(isPending: bool, description: string, status: Status)
    ensures !SubmitDisabled(isPending, description) <==>
      !isPending && SubmitPayload(description, status).Some?
  {
  }

  /** The freshly opened form cannot be submitted. */
  lemma InitialFormIsDisabled(isPending: bool)
    ensures SubmitDisabled(isPending, "")
  {
  }

  /** A successful submit appends one todo to the cache, last, carrying the
      trimmed description and the selected status. */
  lemma SubmittedTodoIsAppended(cache: Option<seq<TodoItem>>, description: string, status: Status, id: int, now: Time)
    requires SubmitPayload(description, status).Some?
    ensures var r := AddTodoMutation.AddToCache(cache, AddTodoMutation.AddTodo(SubmitPayload(description, status).value, id, now));
      && |r| == |cache.GetOr([])| + 1
      && r[..|r| - 1] == cache.GetOr([])
      && r[|r| - 1].description == Trim(description)
      && r[|r| - 1].status == status
  {
  }

  class AddTodoForm {
    var description: string
    var status: Status

    constructor ()
      ensures description == "" && status == Todo
    {
      description := "";
      status := Todo;
    }

    /** The description field's `onChange`. */
    method SetDescription(d: string)
      modifies this
      ensures description == d && status == old(status)
    {
      description := d;
    }

    /** The status select's `onChange`. */
    method SetStatus(s: Status)
      modifies this
      ensures status == s && description == old(description)
    {
      status := s;
    }

    /** `handleSubmit`: the payload handed to the add mutation, if any. The
        form itself does not change. */
    method HandleSubmit() returns (payload: Option<AddTodoMutation.NewTodo>)
      ensures payload == SubmitPayload(description, status)
    {
      payload := SubmitPayload(description, status);
    }

    /** The add mutation settles. Only success is handled: the form resets
        and the dialog's `onClose` is called once. A failure changes nothing
        and closes nothing. */
    method MutationSettled(succeeded: bool) returns (closeCalls: nat)
      modifies this
      ensures succeeded ==> description == "" && status == Todo && closeCalls == 1
      ensures !succeeded ==> description == old(description) && status == old(status) && closeCalls == 0
    {
      closeCalls := 0;
      if succeeded {
        description := "";
        status := Todo;
        closeCalls := 1;
      }
    }
  }
}
