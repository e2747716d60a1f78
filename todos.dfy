/** The to-do store: the whole collection lives in one document that every
    operation loads, changes in memory and writes back. */
module Todos {
  import opened Models

  /** The items of `todos` owned by `username`, in storage order. */
  function UserTodos(todos: seq<TodoItem>, username: string): (r: seq<TodoItem>)
    ensures |r| <= |todos|
    ensures forall t :: t in r <==> t in todos && t.owner == username
  {
    if todos == [] then []
    else (if todos[0].owner == username then [todos[0]] else []) + UserTodos(todos[1..], username)
  }

  /** Filtering distributes over concatenation: the items of the first part come first. */
  lemma {:induction false} UserTodosConcat(a: seq<TodoItem>, b: seq<TodoItem>, username: string)
    ensures UserTodos(a + b, username) == UserTodos(a, username) + UserTodos(b, username)
  {
    if a != [] {
      assert (a + b)[1..] == a[1..] + b;
      assert (a + b)[0] == a[0];
      UserTodosConcat(a[1..], b, username);
      var head := if a[0].owner == username then [a[0]] else [];
      assert UserTodos(a + b, username) == head + (UserTodos(a[1..], username) + UserTodos(b, username));
    } else {
      assert a + b == b;
    }
  }

  /** Appending an item extends its owner's list by that item and leaves everyone else's alone. */
  lemma {:induction false} UserTodosAppend(todos: seq<TodoItem>, t: TodoItem, username: string)
    ensures UserTodos(todos + [t], username)
         == UserTodos(todos, username) + (if t.owner == username then [t] else [])
  {
    UserTodosConcat(todos, [t], username);
    assert [t][1..] == [];
  }

  /** The indices, from `from` on, of the items owned by `username`, ascending. */
  ghost function OwnedIndices(todos: seq<TodoItem>, username: string, from: nat): seq<nat>
    requires from <= |todos|
    decreases |todos| - from
  {
    if from == |todos| then []
    else (if todos[from].owner == username then [from] else []) + OwnedIndices(todos, username, from + 1)
  }

  lemma {:induction false} UserTodosFollowIndices(todos: seq<TodoItem>, username: string, from: nat)
    requires from <= |todos|
    ensures var r, ix := UserTodos(todos[from..], username), OwnedIndices(todos, username, from);
      && |r| == |ix|
      && (forall k :: 0 <= k < |ix| ==> from <= ix[k] < |todos| && todos[ix[k]].owner == username && r[k] == todos[ix[k]])
      && (forall k, l :: 0 <= k < l < |ix| ==> ix[k] < ix[l])
      && (forall j :: from <= j < |todos| && todos[j].owner == username ==> j in ix)
    decreases |todos| - from
  {
    if from < |todos| {
      UserTodosFollowIndices(todos, username, from + 1);
      assert todos[from..][1..] == todos[from + 1..];
      assert todos[from..][0] == todos[from];
    }
  }

  /** The result of the owner filter is exactly the owned items, picked at strictly
      increasing positions of the stored collection, and no owned position is skipped. */
  lemma UserTodosInStorageOrder(todos: seq<TodoItem>, username: string)
    ensures var r, ix := UserTodos(todos, username), OwnedIndices(todos, username, 0);
      && |r| == |ix|
      && (forall k :: 0 <= k < |ix| ==> ix[k] < |todos| && todos[ix[k]].owner == username && r[k] == todos[ix[k]])
      && (forall k, l :: 0 <= k < l < |ix| ==> ix[k] < ix[l])
      && (forall j :: 0 <= j < |todos| && todos[j].owner == username ==> j in ix)
  {
    UserTodosFollowIndices(todos, username, 0);
    assert todos[0..] == todos;
  }

  class TodoManager {
    /** The stored collection (the contents of the todos document). */
    var todos: seq<TodoItem>

    /** Opens the store. `stored` is the document's contents, or None when the
        document does not exist yet, in which case it starts as the empty list. */
    constructor (stored: Option<seq<TodoItem>>)
      ensures stored.None? ==> todos == []
      ensures stored.Some? ==> todos == stored.value
    {
      todos := if stored.Some? then stored.value else [];
    }

    /** Loads the collection, appends the item and writes the collection back; always succeeds. */
    method AddTodo(todo: TodoItem) returns (ok: bool)
      modifies this
      ensures ok
      ensures todos == old(todos) + [todo]
      ensures forall k :: 0 <= k < |old(todos)| ==> todos[k] == old(todos)[k]
      ensures forall owner :: UserTodos(todos, owner)
                           == UserTodos(old(todos), owner) + (if owner == todo.owner then [todo] else [])
    {
      var loaded := todos;
      loaded := loaded + [todo];
      todos := loaded;
      ok := true;
      forall owner
        ensures UserTodos(todos, owner) == UserTodos(old(todos), owner) + (if owner == todo.owner then [todo] else [])
      {
        UserTodosAppend(old(todos), todo, owner);
      }
    }

    /** The stored items owned by `username`; reads the collection without changing it. */
    function GetUserTodos(username: string): (r: seq<TodoItem>)
      reads this
      ensures forall t :: t in r <==> t in todos && t.owner == username
      ensures r == UserTodos(todos, username)
    {
      UserTodos(todos, username)
    }
  }
}
