/** The todo list as a value and the three list transformations the page's
    handlers apply to it: append, filter by id and map by id. */
module Todos {

  /** One todo item (the `Todo` type: `id`, `text`, `completed`). */
  datatype Todo = Todo(id: int, text: string, completed: bool)

  /** The ids of the list, in list order. */
  function Ids(todos: seq<Todo>): seq<int> {
    seq(|todos|, i requires 0 <= i < |todos| => todos[i].id)
  }

  /** No two items of the list share an id. */
  predicate DistinctIds(todos: seq<Todo>) {
    forall i, j :: 0 <= i < j < |todos| ==> todos[i].id != todos[j].id
  }

  /** Some item of the list has id `id`. */
  predicate HasId(todos: seq<Todo>, id: int) {
    exists i :: 0 <= i < |todos| && todos[i].id == id
  }

  /** `todos.filter(todo => todo.id !== id)`. */
  function RemoveId(todos: seq<Todo>, id: int): (r: seq<Todo>)
    ensures |r| <= |todos|
    ensures forall i :: 0 <= i < |r| ==> r[i].id != id
    ensures !HasId(todos, id) ==> r == todos
    decreases |todos|
  {
    if todos == [] then []
    else
      assert !HasId(todos, id) ==> !HasId(todos[1..], id) by {
        if HasId(todos[1..], id) {
          var i :| 0 <= i < |todos| - 1 && todos[1..][i].id == id;
          assert todos[i + 1].id == id;
        }
      }
      assert todos == [todos[0]] + todos[1..];
      (if todos[0].id == id then [] else [todos[0]]) + RemoveId(todos[1..], id)
  }

  /** `todos.map(todo => todo.id === id ? f(todo) : todo)`. */
  function UpdateWhere(todos: seq<Todo>, id: int, f: Todo -> Todo): (r: seq<Todo>)
    ensures |r| == |todos|
    ensures forall i :: 0 <= i < |todos| ==> r[i] == if todos[i].id == id then f(todos[i]) else todos[i]
    decreases |todos|
  {
    if todos == [] then []
    else [if todos[0].id == id then f(todos[0]) else todos[0]] + UpdateWhere(todos[1..], id, f)
  }

  /** The toggle handler's map: `completed` flips on every item with that id. */
  function Toggled(todos: seq<Todo>, id: int): (r: seq<Todo>)
    ensures |r| == |todos| && Ids(r) == Ids(todos)
    ensures forall i :: 0 <= i < |todos| ==>
      r[i].id == todos[i].id && r[i].text == todos[i].text &&
      r[i].completed == (if todos[i].id == id then !todos[i].completed else todos[i].completed)
  {
    UpdateWhere(todos, id, (t: Todo) => t.(completed := !t.completed))
  }

  /** The editing handlers' map: every item with that id gets `text`. */
  function Retexted(todos: seq<Todo>, id: int, text: string): (r: seq<Todo>)
    ensures |r| == |todos| && Ids(r) == Ids(todos)
    ensures forall i :: 0 <= i < |todos| ==>
      r[i].id == todos[i].id && r[i].completed == todos[i].completed &&
      r[i].text == (if todos[i].id == id then text else todos[i].text)
  {
    UpdateWhere(todos, id, (t: Todo) => t.(text := text))
  }

  // ---- Deleting ----

  /** Filtering distributes over concatenation, so it keeps the order of the
      items it keeps. */
  lemma {:induction false} RemoveIdConcat(a: seq<Todo>, b: seq<Todo>, id: int)
    ensures RemoveId(a + b, id) == RemoveId(a, id) + RemoveId(b, id)
    decreases |a|
  {
    if a == [] {
      assert a + b == b;
    } else {
      var h := if a[0].id == id then [] else [a[0]];
      assert (a + b)[0] == a[0];
      assert (a + b)[1..] == a[1..] + b;
      calc {
        RemoveId(a + b, id);
        h + RemoveId(a[1..] + b, id);
        { RemoveIdConcat(a[1..], b, id); }
        h + (RemoveId(a[1..], id) + RemoveId(b, id));
        (h + RemoveId(a[1..], id)) + RemoveId(b, id);
        RemoveId(a, id) + RemoveId(b, id);
      }
    }
  }

  /** An item survives a delete exactly when it was in the list and its id
      differs from the deleted one. */
  lemma {:induction false} RemoveIdKeeps(todos: seq<Todo>, id: int, t: Todo)
    ensures t in RemoveId(todos, id) <==> t in todos && t.id != id
    decreases |todos|
  {
    if todos != [] {
      RemoveIdKeeps(todos[1..], id, t);
      assert todos == [todos[0]] + todos[1..];
    }
  }

  /** A one-item list loses its item exactly when the ids match. */
  lemma RemoveIdSingle(t: Todo, id: int)
    ensures RemoveId([t], id) == if t.id == id then [] else [t]
  {
    assert [t][1..] == [];
  }

  /** With distinct ids, deleting the id of the item at `k` removes exactly
      that item and leaves the others in order. */
  lemma RemoveIdAt(todos: seq<Todo>, k: nat)
    requires DistinctIds(todos) && k < |todos|
    ensures RemoveId(todos, todos[k].id) == todos[..k] + todos[k + 1..]
  {
    var id := todos[k].id;
    var a, b := todos[..k], todos[k + 1..];
    assert todos == (a + [todos[k]]) + b;
    assert !HasId(a, id) by {
      forall i | 0 <= i < |a| ensures a[i].id != id { assert a[i] == todos[i]; }
    }
    assert !HasId(b, id) by {
      forall i | 0 <= i < |b| ensures b[i].id != id { assert b[i] == todos[k + 1 + i]; }
    }
    assert RemoveId(a, id) == a && RemoveId(b, id) == b;
    RemoveIdSingle(todos[k], id);
    RemoveIdConcat(a, [todos[k]], id);
    assert RemoveId(a + [todos[k]], id) == a;
    RemoveIdConcat(a + [todos[k]], b, id);
  }

  /** Deleting keeps ids distinct. */
  lemma {:induction false} RemoveIdDistinct(todos: seq<Todo>, id: int)
    requires DistinctIds(todos)
    ensures DistinctIds(RemoveId(todos, id))
    decreases |todos|
  {
    if todos != [] {
      var rest := todos[1..];
      assert DistinctIds(rest) by {
        forall i, j | 0 <= i < j < |rest| ensures rest[i].id != rest[j].id {
          assert rest[i] == todos[i + 1] && rest[j] == todos[j + 1];
        }
      }
      RemoveIdDistinct(rest, id);
      var tail := RemoveId(rest, id);
      var head := if todos[0].id == id then [] else [todos[0]];
      assert RemoveId(todos, id) == head + tail;
      if head != [] {
        forall j | 0 <= j < |tail| ensures tail[j].id != todos[0].id {
          RemoveIdKeeps(rest, id, tail[j]);
          var m :| 0 <= m < |rest| && rest[m] == tail[j];
          assert todos[m + 1] == tail[j];
        }
        var r := head + tail;
        forall i, j | 0 <= i < j < |r| ensures r[i].id != r[j].id {
          assert r[j] == tail[j - 1];
          if 0 < i { assert r[i] == tail[i - 1]; }
        }
      } else {
        assert head + tail == tail;
      }
    }
  }

  // ---- Adding ----

  /** Appending an item appends its id to the id sequence. */
  lemma IdsAppend(todos: seq<Todo>, t: Todo)
    ensures Ids(todos + [t]) == Ids(todos) + [t.id]
  {
  }

  /** Appending an item whose id is not yet used keeps ids distinct. */
  lemma AppendFreshDistinct(todos: seq<Todo>, t: Todo)
    requires DistinctIds(todos) && !HasId(todos, t.id)
    ensures DistinctIds(todos + [t])
    ensures Ids(todos + [t]) == Ids(todos) + [t.id]
  {
    var r := todos + [t];
    forall i, j | 0 <= i < j < |r| ensures r[i].id != r[j].id {
      if j == |todos| {
        assert Ids(todos)[i] == r[i].id;
      } else {
        assert r[i] == todos[i] && r[j] == todos[j];
      }
    }
  }

  // ---- Toggling and editing ----

  /** Toggling the same id twice gives back the original list. */
  lemma ToggleTwice(todos: seq<Todo>, id: int)
    ensures Toggled(Toggled(todos, id), id) == todos
  {
    // Toggled's per-index ensures, applied twice, give back every field;
    // sequence extensionality then gives back the list.
    var r := Toggled(Toggled(todos, id), id);
    forall i | 0 <= i < |todos| ensures r[i] == todos[i] {
      assert r[i].id == todos[i].id && r[i].text == todos[i].text && r[i].completed == todos[i].completed;
    }
  }

  /** Mapping by id keeps ids distinct, since it keeps the ids themselves. */
  lemma SameIdsDistinct(todos: seq<Todo>, r: seq<Todo>)
    requires DistinctIds(todos) && Ids(r) == Ids(todos)
    ensures DistinctIds(r)
  {
    forall i, j | 0 <= i < j < |r| ensures r[i].id != r[j].id {
      assert Ids(r)[i] == todos[i].id && Ids(r)[j] == todos[j].id;
    }
  }

  /** Setting the text of an id that is absent changes nothing, and so does
      toggling one. */
  lemma AbsentIdUnchanged(todos: seq<Todo>, id: int, text: string)
    requires !HasId(todos, id)
    ensures Toggled(todos, id) == todos && Retexted(todos, id, text) == todos
  {
    // No index matches `id`, so the per-index ensures of Toggled and
    // Retexted keep every item; sequence extensionality closes the proof.
  }
}
