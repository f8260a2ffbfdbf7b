/** The state of the `Home` page and its event handlers. Each handler is one
    atomic step on the current state: the React state slots `todos`,
    `newTodo` and `editingId` become fields, and every `setX(v)` call
    becomes an assignment of `v` to field `x`. */
module TodoPage {
  import opened Text
  import opened Todos

  /** `number | null`. */
  datatype Option<T> = None | Some(value: T)

  class Home {
    /** The list shown on the page. */
    var todos: seq<Todo>
    /** What is typed in the "Add a new todo" input. */
    var newTodo: string
    /** The id of the item whose text is being edited, if any. */
    var editingId: Option<int>

    /** The initial state: empty list, empty input, nothing being edited. */
    constructor ()
      ensures todos == [] && newTodo == "" && editingId == None
    {
      todos, newTodo, editingId := [], "", None;
    }

    /** The add input's `onChange`: the input text becomes `value`. */
    method ChangeNewTodo(value: string)
      modifies this
      ensures newTodo == value
      ensures todos == old(todos) && editingId == old(editingId)
    {
      newTodo := value;
    }

    /** `addTodo`, with `freshId` standing for `Date.now()`. A non-blank
        input is appended, trimmed and not completed, and the input is
        cleared; a blank input changes nothing. */
    method AddTodo(freshId: int)
      modifies this
      ensures Trim(old(newTodo)) != "" ==>
        todos == old(todos) + [Todo(freshId, Trim(old(newTodo)), false)] && newTodo == ""
      ensures Trim(old(newTodo)) == "" ==>
        todos == old(todos) && newTodo == old(newTodo)
      ensures editingId == old(editingId)
      ensures Ids(todos) == if Trim(old(newTodo)) != "" then Ids(old(todos)) + [freshId] else Ids(old(todos))
      ensures DistinctIds(old(todos)) && !HasId(old(todos), freshId) ==> DistinctIds(todos)
    {
      var text := Trim(newTodo);
      if text != "" {
        var item := Todo(freshId, text, false);
        if DistinctIds(todos) && !HasId(todos, freshId) {
          AppendFreshDistinct(todos, item);
        }
        IdsAppend(todos, item);
        todos := todos + [item];
        newTodo := "";
      }
    }

    /** `deleteTodo`: keep exactly the items whose id differs, in order. */
    method DeleteTodo(id: int)
      modifies this
      ensures todos == RemoveId(old(todos), id)
      ensures !HasId(todos, id)
      ensures newTodo == old(newTodo) && editingId == old(editingId)
      ensures DistinctIds(old(todos)) ==> DistinctIds(todos)
      ensures forall k :: DistinctIds(old(todos)) && 0 <= k < |old(todos)| && old(todos)[k].id == id ==>
        todos == old(todos)[..k] + old(todos)[k + 1..]
    {
      if DistinctIds(todos) {
        RemoveIdDistinct(todos, id);
        forall k | 0 <= k < |todos| && todos[k].id == id
          ensures RemoveId(todos, id) == todos[..k] + todos[k + 1..]
        {
          RemoveIdAt(todos, k);
        }
      }
      todos := RemoveId(todos, id);
    }

    /** `startEditing`: `id` becomes the item being edited. */
    method StartEditing(id: int)
      modifies this
      ensures editingId == Some(id)
      ensures todos == old(todos) && newTodo == old(newTodo)
    {
      editingId := Some(id);
    }

    /** `finishEditing`: every item with that id gets the trimmed text, which
        may be empty, and nothing is being edited any more. */
    method FinishEditing(id: int, newText: string)
      modifies this
      ensures todos == Retexted(old(todos), id, Trim(newText))
      ensures editingId == None && newTodo == old(newTodo)
      ensures Ids(todos) == Ids(old(todos))
      ensures DistinctIds(old(todos)) ==> DistinctIds(todos)
    {
      var r := Retexted(todos, id, Trim(newText));
      if DistinctIds(todos) {
        SameIdsDistinct(todos, r);
      }
      todos := r;
      editingId := None;
    }

    /** `toggleTodo`: every item with that id flips `completed`. */
    method ToggleTodo(id: int)
      modifies this
      ensures todos == Toggled(old(todos), id)
      ensures newTodo == old(newTodo) && editingId == old(editingId)
      ensures Ids(todos) == Ids(old(todos))
      ensures DistinctIds(old(todos)) ==> DistinctIds(todos)
    {
      var r := Toggled(todos, id);
      if DistinctIds(todos) {
        SameIdsDistinct(todos, r);
      }
      todos := r;
    }

    /** The edit input's `onChange`: every item with id `id` takes the raw
        input as its text, untrimmed. On the page this input is rendered only
        for the item whose id is `editingId`; the model accepts any `id` and
        does not tie it to `editingId`. */
    method ChangeEditText(id: int, newText: string)
      modifies this
      ensures todos == Retexted(old(todos), id, newText)
      ensures newTodo == old(newTodo) && editingId == old(editingId)
      ensures Ids(todos) == Ids(old(todos))
      ensures DistinctIds(old(todos)) ==> DistinctIds(todos)
    {
      var r := Retexted(todos, id, newText);
      if DistinctIds(todos) {
        SameIdsDistinct(todos, r);
      }
      todos := r;
    }
  }

  /** A session on a fresh page: typing "Buy milk" and adding it gives one
      item with that text, not completed; a blank input changes nothing;
      toggling twice restores the list; committing a blank edit leaves the
      item with empty text. */
  method Scenario()
  {
    var page := new Home();
    page.ChangeNewTodo("Buy milk");
    TrimBuyMilk();
    page.AddTodo(1);
    assert page.todos == [Todo(1, "Buy milk", false)] && page.newTodo == "";
    page.ChangeNewTodo("   ");
    TrimBlank();
    page.AddTodo(2);
    assert page.todos == [Todo(1, "Buy milk", false)] && page.newTodo == "   ";
    var before := page.todos;
    page.ToggleTodo(1);
    assert page.todos[0].completed;
    page.ToggleTodo(1);
    ToggleTwice(before, 1);
    assert page.todos == before;
    page.StartEditing(1);
    page.ChangeEditText(1, "   ");
    assert page.todos == [Todo(1, "   ", false)];
    page.FinishEditing(1, page.todos[0].text);
    assert page.todos == [Todo(1, Trim("   "), false)];
    assert page.todos == [Todo(1, "", false)] && page.editingId == None;
  }
}
