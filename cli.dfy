/** The one rule of the command-line layer that is kept: how a new item is built. */
module Cli {
  import opened Models
  import opened Todos

  /** The priority typed by the user (already trimmed and upper-cased); anything
      that is not a priority tag falls back to MID. */
  function PriorityOrDefault(input: string): (p: Priority)
    ensures PriorityValue(p) == input || (p == MID && forall q :: PriorityValue(q) != input)
  {
    match ParsePriority(input)
    case Some(q) => q
    case None => MID
  }

  /** The item built for the logged-in user: pending, owned by that user, no due date. */
  function NewTodo(currentUser: string, title: string, details: string, priorityInput: string,
                   id: string, createdAt: string, updatedAt: string): (t: TodoItem)
    ensures t.status == PENDING && t.owner == currentUser && t.dueDate == None
    ensures t.title == title && t.details == details && t.id == id
    ensures t.createdAt == createdAt && t.updatedAt == updatedAt
    ensures PriorityValue(t.priority) == priorityInput
         || (t.priority == MID && forall q :: PriorityValue(q) != priorityInput)
  {
    TodoItem(id, title, details, PriorityOrDefault(priorityInput), PENDING, currentUser,
             createdAt, updatedAt, None)
  }

  /** Builds the new item and adds it to the store: the user's list grows by exactly that item. */
  method HandleAddTodo(manager: TodoManager, currentUser: string, title: string, details: string,
                       priorityInput: string, id: string, createdAt: string, updatedAt: string)
    modifies manager
    ensures manager.todos
         == old(manager.todos) + [NewTodo(currentUser, title, details, priorityInput, id, createdAt, updatedAt)]
    ensures UserTodos(manager.todos, currentUser)
         == UserTodos(old(manager.todos), currentUser)
            + [NewTodo(currentUser, title, details, priorityInput, id, createdAt, updatedAt)]
  {
    var todo := NewTodo(currentUser, title, details, priorityInput, id, createdAt, updatedAt);
    var _ := manager.AddTodo(todo);
  }
}
