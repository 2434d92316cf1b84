/** The list logic of the to-do panel: the ordered task list and the pure operations its
    handlers perform on it. The date of a task is the opaque `YYYY-MM-DD` key of the day it is
    scheduled for; the panel's selected date is passed in as that same key. */
module TodoList {
  import opened Wrappers
  import opened Sequences

  datatype Todo = Todo(id: string, text: string, completed: bool, date: string)

  /** No two tasks share an id. Ids come from the clock, so this is assumed, never established. */
  predicate UniqueIds(todos: seq<Todo>) {
    forall i, j :: 0 <= i < |todos| && 0 <= j < |todos| && todos[i].id == todos[j].id ==> i == j
  }

  // ---------------------------------------------------------------------------------------
  // Adding: guarded by `String.prototype.trim`

  /** The code points `String.prototype.trim` strips: ECMAScript WhiteSpace and LineTerminator. */
  predicate IsJsWhitespace(c: char) {
    || c == '\t' || c == '\n' || c == '\U{000B}' || c == '\U{000C}' || c == '\r'
    || c == ' ' || c == '\U{00A0}' || c == '\U{1680}' || ('\U{2000}' <= c <= '\U{200A}')
    || c == '\U{2028}' || c == '\U{2029}' || c == '\U{202F}' || c == '\U{205F}'
    || c == '\U{3000}' || c == '\U{FEFF}'
  }

  predicate Blank(s: string) {
    forall k :: 0 <= k < |s| ==> IsJsWhitespace(s[k])
  }

  /** The first position at or after `i` that is not whitespace, or the end. */
  function SkipLeading(s: string, i: nat): (r: nat)
    requires i <= |s|
    ensures i <= r <= |s|
    ensures forall k :: i <= k < r ==> IsJsWhitespace(s[k])
    ensures r < |s| ==> !IsJsWhitespace(s[r])
    decreases |s| - i
  {
    if i < |s| && IsJsWhitespace(s[i]) then SkipLeading(s, i + 1) else i
  }

  /** The position just after the last non-whitespace character in `s[lo..j]`, or `lo`. */
  function SkipTrailing(s: string, lo: nat, j: nat): (r: nat)
    requires lo <= j <= |s|
    ensures lo <= r <= j
    ensures forall k :: r <= k < j ==> IsJsWhitespace(s[k])
    ensures r > lo ==> !IsJsWhitespace(s[r - 1])
    decreases j - lo
  {
    if j > lo && IsJsWhitespace(s[j - 1]) then SkipTrailing(s, lo, j - 1) else j
  }

  /** `r` is the slice of `s` starting at `i`, and what lies outside it is whitespace. */
  predicate TrimmedAt(s: string, i: nat, r: string) {
    && i + |r| <= |s| && r == s[i..i + |r|]
    && (forall k :: 0 <= k < i ==> IsJsWhitespace(s[k]))
    && (forall k :: i + |r| <= k < |s| ==> IsJsWhitespace(s[k]))
  }

  /** `String.prototype.trim`: a slice of `s` with no whitespace at either end, everything cut
      off on either side being whitespace. */
  function Trim(s: string): (r: string)
    ensures exists i :: TrimmedAt(s, i, r)
    ensures |r| > 0 ==> !IsJsWhitespace(r[0]) && !IsJsWhitespace(r[|r| - 1])
  {
    var i := SkipLeading(s, 0);
    var j := SkipTrailing(s, i, |s|);
    assert TrimmedAt(s, i, s[i..j]);
    s[i..j]
  }

  /** Trimming leaves nothing exactly when the input is whitespace only. */
  lemma TrimEmptyIffBlank(s: string)
    ensures Trim(s) == "" <==> Blank(s)
  {
  }

  /** `addTodo`: with a non-blank input, append a fresh incomplete task carrying the raw input
      text and the selected date, and clear the input; with a blank input change nothing.
      The fresh id (`Date.now()` in the source) is a parameter. */
  function AddTodo(todos: seq<Todo>, input: string, selectedDate: string, freshId: string): (r: (seq<Todo>, string))
    ensures Blank(input) ==> r == (todos, input)
    ensures !Blank(input) ==>
      && |r.0| == |todos| + 1
      && r.0[..|todos|] == todos
      && r.0[|todos|].id == freshId
      && r.0[|todos|].text == input
      && !r.0[|todos|].completed
      && r.0[|todos|].date == selectedDate
      && r.1 == ""
  {
    TrimEmptyIffBlank(input);
    if Trim(input) != "" then
      (todos + [Todo(freshId, input, false, selectedDate)], "")
    else
      (todos, input)
  }

  // ---------------------------------------------------------------------------------------
  // Toggling and editing: `todos.map` replacing one field on the tasks whose id matches

  /** `toggleTodo`: flip `completed` on every task with the given id; nothing else changes. */
  function Toggle(todos: seq<Todo>, id: string): (r: seq<Todo>)
    ensures |r| == |todos|
    ensures forall i :: 0 <= i < |r| ==>
      && r[i].id == todos[i].id && r[i].text == todos[i].text && r[i].date == todos[i].date
      && (r[i].completed != todos[i].completed <==> todos[i].id == id)
    decreases |todos|
  {
    if |todos| == 0 then []
    else
      var t := todos[0];
      [if t.id == id then t.(completed := !t.completed) else t] + Toggle(todos[1..], id)
  }

  /** The text edit that `saveEdit` applies: replace `text` on every task with the given id. */
  function SetText(todos: seq<Todo>, id: string, text: string): (r: seq<Todo>)
    ensures |r| == |todos|
    ensures forall i :: 0 <= i < |r| ==>
      && r[i].id == todos[i].id && r[i].completed == todos[i].completed && r[i].date == todos[i].date
      && r[i].text == if todos[i].id == id then text else todos[i].text
    decreases |todos|
  {
    if |todos| == 0 then []
    else
      var t := todos[0];
      [if t.id == id then t.(text := text) else t] + SetText(todos[1..], id, text)
  }

  /** The panel's edit state: the id being edited, if any, and the text in the edit box. */
  datatype EditState = EditState(editingId: Option<string>, editText: string)

  /** `startEditing`: begin editing a task, with its current text in the edit box. */
  function StartEditing(id: string, text: string): (e: EditState)
    ensures e.editingId == Some(id) && e.editText == text
  {
    EditState(Some(id), text)
  }

  /** Saving right after starting to edit a task stores the edit box's text on the tasks with
      that id, and ends the edit. */
  lemma StartThenSave(todos: seq<Todo>, id: string, text: string)
    ensures SaveEdit(todos, StartEditing(id, text)) == (SetText(todos, id, text), EditState(None, text))
  {
  }

  /** `saveEdit`: without an edit in progress nothing happens; otherwise the edit box's text,
      even an empty one, becomes the text of the matching tasks and the edit ends. */
  function SaveEdit(todos: seq<Todo>, edit: EditState): (r: (seq<Todo>, EditState))
    ensures edit.editingId.None? ==> r == (todos, edit)
    ensures edit.editingId.Some? ==>
      && r.1 == EditState(None, edit.editText)
      && |r.0| == |todos|
      && forall i :: 0 <= i < |todos| ==>
        && r.0[i].id == todos[i].id && r.0[i].completed == todos[i].completed
        && r.0[i].date == todos[i].date
        && r.0[i].text == if todos[i].id == edit.editingId.value then edit.editText else todos[i].text
  {
    match edit.editingId
    case None => (todos, edit)
    case Some(id) => (SetText(todos, id, edit.editText), edit.(editingId := None))
  }

  /** `cancelEdit`: end the edit; it has no access to the list at all. */
  function CancelEdit(edit: EditState): (e: EditState)
    ensures e.editingId.None? && e.editText == edit.editText
  {
    edit.(editingId := None)
  }

  // ---------------------------------------------------------------------------------------
  // Deleting and the date view: `todos.filter`

  function WithoutId(id: string): Todo -> bool {
    (t: Todo) => t.id != id
  }

  function OnDate(date: string): Todo -> bool {
    (t: Todo) => t.date == date
  }

  function OffDate(date: string): Todo -> bool {
    (t: Todo) => t.date != date
  }

  /** `deleteTodo`: every task whose id differs, each as often as before, in the same order. */
  function Delete(todos: seq<Todo>, id: string): (r: seq<Todo>)
    ensures forall i :: 0 <= i < |r| ==> r[i].id != id
    ensures forall t :: multiset(r)[t] == if t.id == id then 0 else multiset(todos)[t]
  {
    KeepCount(todos, WithoutId(id));
    Keep(todos, WithoutId(id))
  }

  /** `filteredTodos`: the tasks scheduled on the selected date, in list order. */
  function FilterDate(todos: seq<Todo>, date: string): (r: seq<Todo>)
    ensures forall i :: 0 <= i < |r| ==> r[i].date == date
    ensures forall t :: multiset(r)[t] == if t.date == date then multiset(todos)[t] else 0
  {
    KeepCount(todos, OnDate(date));
    Keep(todos, OnDate(date))
  }

  // ---------------------------------------------------------------------------------------
  // Drag-and-drop reordering

  /** `Array.prototype.findIndex` on the id: the first position holding it, or -1. */
  function FindIndex(todos: seq<Todo>, id: string): (r: int)
    ensures -1 <= r < |todos|
    ensures r >= 0 ==> todos[r].id == id && forall k :: 0 <= k < r ==> todos[k].id != id
    ensures r == -1 <==> forall k :: 0 <= k < |todos| ==> todos[k].id != id
    decreases |todos|
  {
    if |todos| == 0 then -1
    else if todos[0].id == id then 0
    else
      var k := FindIndex(todos[1..], id);
      if k < 0 then -1 else k + 1
  }

  /** `onDragEnd`: `source` and `destination` index the date view. Without a destination the
      list is returned as it is. Otherwise both view positions are located in the full list by
      id, and the task at the first is spliced out and spliced back in at the second. A view
      index out of range makes the source throw; that outcome is `None`, the list unchanged. */
  function OnDragEnd(todos: seq<Todo>, selectedDate: string, source: int, destination: Option<int>): (r: Option<seq<Todo>>)
    ensures destination.None? ==> r == Some(todos)
    ensures r.None? <==>
      destination.Some? && !(0 <= source < |FilterDate(todos, selectedDate)| && 0 <= destination.value < |FilterDate(todos, selectedDate)|)
    ensures r.Some? ==> |r.value| == |todos| && multiset(r.value) == multiset(todos)
  {
    if destination.None? then Some(todos)
    else
      var view := FilterDate(todos, selectedDate);
      var dst := destination.value;
      if !(0 <= source < |view| && 0 <= dst < |view|) then None
      else
        assert view[source] in multiset(todos) && view[dst] in multiset(todos);
        var si := FindIndex(todos, view[source].id);
        var di := FindIndex(todos, view[dst].id);
        Some(Move(todos, si, di))
  }

  // ---------------------------------------------------------------------------------------
  // Properties

  /** A successful add shows the new task last in the selected date's view and leaves every
      other date's view as it was. */
  lemma AddShowsInView(todos: seq<Todo>, input: string, selectedDate: string, freshId: string, date: string)
    requires !Blank(input)
    ensures var added := Todo(freshId, input, false, selectedDate);
      FilterDate(AddTodo(todos, input, selectedDate, freshId).0, date)
        == FilterDate(todos, date) + (if date == selectedDate then [added] else [])
  {
    var added := Todo(freshId, input, false, selectedDate);
    var r := AddTodo(todos, input, selectedDate, freshId).0;
    assert r == todos + [added];
    KeepConcat(todos, [added], OnDate(date));
    KeepSingleton(added, OnDate(date));
  }

  /** Adding with an id no task has keeps the ids unique. */
  lemma AddKeepsIdsUnique(todos: seq<Todo>, input: string, selectedDate: string, freshId: string)
    requires UniqueIds(todos)
    requires forall k :: 0 <= k < |todos| ==> todos[k].id != freshId
    ensures UniqueIds(AddTodo(todos, input, selectedDate, freshId).0)
  {
  }

  /** Toggling is an involution. */
  lemma ToggleTwice(todos: seq<Todo>, id: string)
    ensures Toggle(Toggle(todos, id), id) == todos
  {
  }

  /** Toggling changes the list exactly when some task has the id. */
  lemma ToggleUnchangedIffAbsent(todos: seq<Todo>, id: string)
    ensures Toggle(todos, id) == todos <==> forall k :: 0 <= k < |todos| ==> todos[k].id != id
  {
  }

  /** What the date view shows after a toggle is the toggled date view. */
  lemma {:induction false} ToggleCommutesWithView(todos: seq<Todo>, id: string, date: string)
    ensures FilterDate(Toggle(todos, id), date) == Toggle(FilterDate(todos, date), id)
    decreases |todos|
  {
    if |todos| > 0 {
      ToggleCommutesWithView(todos[1..], id, date);
      assert Toggle(todos, id)[1..] == Toggle(todos[1..], id);
      if todos[0].date == date {
        var v := FilterDate(todos, date);
        assert v == [todos[0]] + FilterDate(todos[1..], date);
        assert v[1..] == FilterDate(todos[1..], date);
      }
    }
  }

  /** Saving after a cancel is a no-op, and a cancelled edit leaves the list alone. */
  lemma SaveAfterCancel(todos: seq<Todo>, edit: EditState)
    ensures SaveEdit(todos, CancelEdit(edit)) == (todos, CancelEdit(edit))
  {
  }

  /** Saving accepts the empty text: it is stored on the edited task like any other. */
  lemma SaveEditAcceptsEmpty(todos: seq<Todo>, k: nat)
    requires k < |todos|
    ensures SaveEdit(todos, EditState(Some(todos[k].id), "")).0[k].text == ""
  {
  }

  /** Filtering keeps ids unique. */
  lemma {:induction false} KeepUniqueIds(todos: seq<Todo>, p: Todo -> bool)
    requires UniqueIds(todos)
    ensures UniqueIds(Keep(todos, p))
    decreases |todos|
  {
    if |todos| > 0 {
      var rest := todos[1..];
      assert UniqueIds(rest) by {
        forall i, j | 0 <= i < |rest| && 0 <= j < |rest| && rest[i].id == rest[j].id ensures i == j {
          assert todos[i + 1].id == todos[j + 1].id;
        }
      }
      KeepUniqueIds(rest, p);
      var kr := Keep(rest, p);
      if p(todos[0]) {
        KeepCount(rest, p);
        forall m | 0 <= m < |kr| ensures kr[m].id != todos[0].id {
          assert kr[m] in multiset(kr);
          assert kr[m] in rest;
          var n :| 0 <= n < |rest| && rest[n] == kr[m];
          assert todos[n + 1] == kr[m];
        }
        var r := Keep(todos, p);
        assert r == [todos[0]] + kr;
        forall i, j | 0 <= i < |r| && 0 <= j < |r| && r[i].id == r[j].id ensures i == j {
          if i > 0 && j > 0 {
            assert kr[i - 1].id == kr[j - 1].id;
          }
        }
      }
    }
  }

  /** Deleting twice removes nothing more. */
  lemma DeleteIdempotent(todos: seq<Todo>, id: string)
    ensures Delete(Delete(todos, id), id) == Delete(todos, id)
  {
    KeepIdempotent(todos, WithoutId(id));
  }

  /** Deleting changes the list exactly when some task has the id. */
  lemma DeleteUnchangedIffAbsent(todos: seq<Todo>, id: string)
    ensures Delete(todos, id) == todos <==> forall k :: 0 <= k < |todos| ==> todos[k].id != id
  {
    KeepAll(todos, WithoutId(id));
  }

  /** A deleted task never comes back to life: toggling or editing its id afterwards is a
      no-op, and the surviving ids stay unique. */
  lemma DeleteIsFinal(todos: seq<Todo>, id: string, text: string)
    ensures var r := Delete(todos, id);
      Toggle(r, id) == r && SetText(r, id, text) == r
    ensures UniqueIds(todos) ==> UniqueIds(Delete(todos, id))
  {
    var r := Delete(todos, id);
    ToggleUnchangedIffAbsent(r, id);
    assert forall i :: 0 <= i < |r| ==> SetText(r, id, text)[i] == r[i];
    if UniqueIds(todos) {
      KeepUniqueIds(todos, WithoutId(id));
    }
  }

  /** A view entry is found in the full list at the position whose rank in the view is the
      entry's own index, provided ids are unique. */
  lemma FindInView(todos: seq<Todo>, date: string, a: nat)
    requires UniqueIds(todos)
    requires a < |FilterDate(todos, date)|
    ensures var i := FindIndex(todos, FilterDate(todos, date)[a].id);
      0 <= i && todos[i] == FilterDate(todos, date)[a] && |FilterDate(todos[..i], date)| == a
  {
    var view := FilterDate(todos, date);
    var x := view[a];
    assert x in multiset(todos);
    var n :| 0 <= n < |todos| && todos[n] == x;
    var i := FindIndex(todos, x.id);
    assert i == n;
    KeepRemoveAt(todos, i, OnDate(date));
    var c := |FilterDate(todos[..i], date)|;
    KeepUniqueIds(todos, OnDate(date));
    assert view[c].id == view[a].id;
  }

  /** Dragging never touches any task but the dragged one: deleting the dragged task from the
      list before and after the drag gives the same list. */
  lemma DragKeepsOthers(todos: seq<Todo>, selectedDate: string, source: int, dst: int)
    requires 0 <= source < |FilterDate(todos, selectedDate)| && 0 <= dst < |FilterDate(todos, selectedDate)|
    ensures var dragged := FilterDate(todos, selectedDate)[source].id;
      Delete(OnDragEnd(todos, selectedDate, source, Some(dst)).value, dragged) == Delete(todos, dragged)
  {
    var view := FilterDate(todos, selectedDate);
    var id := view[source].id;
    DragIsMove(todos, selectedDate, source, dst);
    var si := FindIndex(todos, id);
    var di := FindIndex(todos, view[dst].id);
    KeepMoveOther(todos, si, di, WithoutId(id));
  }

  /** A drag with in-range view indices is the move between the positions `findIndex`
      reports for the two view entries, both of which are found. */
  lemma DragIsMove(todos: seq<Todo>, selectedDate: string, source: int, dst: int)
    requires 0 <= source < |FilterDate(todos, selectedDate)| && 0 <= dst < |FilterDate(todos, selectedDate)|
    ensures var view := FilterDate(todos, selectedDate);
      var si, di := FindIndex(todos, view[source].id), FindIndex(todos, view[dst].id);
      && 0 <= si && 0 <= di && todos[si].id == view[source].id
      && OnDragEnd(todos, selectedDate, source, Some(dst)) == Some(Move(todos, si, di))
  {
    var view := FilterDate(todos, selectedDate);
    assert view[source] in multiset(todos) && view[dst] in multiset(todos);
  }

  /** With unique ids, a drag leaves the order of the tasks of every other date alone ... */
  lemma DragKeepsOtherDates(todos: seq<Todo>, selectedDate: string, source: int, destination: Option<int>)
    requires UniqueIds(todos)
    requires OnDragEnd(todos, selectedDate, source, destination).Some?
    ensures Keep(OnDragEnd(todos, selectedDate, source, destination).value, OffDate(selectedDate))
      == Keep(todos, OffDate(selectedDate))
  {
    if destination.Some? {
      var view := FilterDate(todos, selectedDate);
      FindInView(todos, selectedDate, source);
      assert view[destination.value] in multiset(todos);
      var si := FindIndex(todos, view[source].id);
      var di := FindIndex(todos, view[destination.value].id);
      KeepMoveOther(todos, si, di, OffDate(selectedDate));
    }
  }

  /** ... and on the selected date's view it is the standard list move from `source` to
      `destination`: the dragged task lands at `destination`. */
  lemma DragMovesInView(todos: seq<Todo>, selectedDate: string, source: int, dst: int)
    requires UniqueIds(todos)
    requires 0 <= source < |FilterDate(todos, selectedDate)| && 0 <= dst < |FilterDate(todos, selectedDate)|
    ensures var view := FilterDate(todos, selectedDate);
      FilterDate(OnDragEnd(todos, selectedDate, source, Some(dst)).value, selectedDate) == Move(view, source, dst)
  {
    var view := FilterDate(todos, selectedDate);
    FindInView(todos, selectedDate, source);
    FindInView(todos, selectedDate, dst);
    var si := FindIndex(todos, view[source].id);
    var di := FindIndex(todos, view[dst].id);
    KeepMove(todos, si, di, OnDate(selectedDate));
  }
}
