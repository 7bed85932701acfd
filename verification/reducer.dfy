/**
  The list reducer of the `TodoList` component: `dispatch` switches on the
  action's type and replaces the todo list, and the three direct updaters
  `addTodo`, `removeTodo` and `toggleTodo` repeat three of its branches.
  Each dispatch is one synchronous, pure transition from list to list.
 */
module Reducer {
  import Seqs
  import opened Todos

  /** The `{type, payload}` records `dispatch` receives. `Unknown` stands for
      any record whose type is none of "set", "add", "remove" or "toggle". */
  datatype Action =
    | Set(items: seq<Todo>)
    | Add(todo: Todo)
    | Remove(id: int)
    | Toggle(id: int)
    | Unknown

  /** The item with `complete` negated when its id is `id`, else the item itself. */
  function Flip(id: int): Todo -> Todo {
    (t: Todo) => if t.id == id then t.(complete := !t.complete) else t
  }

  /** The list after dispatching `action` on `todos`. */
  function Reduce(todos: seq<Todo>, action: Action): (r: seq<Todo>)
    ensures action.Set? ==> r == action.items
    ensures action.Add? ==>
      && |r| == |todos| + 1
      && r[..|todos|] == todos
      && r[|todos|] == action.todo
    ensures action.Remove? ==>
      && (forall i :: 0 <= i < |r| ==> r[i].id != action.id && r[i] in todos)
      && (forall i :: 0 <= i < |todos| && todos[i].id != action.id ==> todos[i] in r)
      && |r| == |todos| - Matching(todos, action.id)
    ensures action.Toggle? ==>
      && |r| == |todos|
      && forall i :: 0 <= i < |todos| ==>
           && r[i].id == todos[i].id
           && r[i].text == todos[i].text
           && if todos[i].id == action.id
              then r[i].complete == !todos[i].complete
              else r[i] == todos[i]
    ensures action.Unknown? ==> r == todos
  {
    match action
    case Set(items) => items
    case Add(todo) => todos + [todo]
    case Remove(id) =>
      Seqs.CountComplement(HasId(id), LacksId(id), todos);
      Seqs.Filter(LacksId(id), todos)
    case Toggle(id) => Seqs.Map(Flip(id), todos)
    case Unknown => todos
  }

  /** `remove` keeps the surviving items in their original relative order:
      the result is exactly the items of `todos` whose id differs from `id`,
      taken at increasing positions. */
  lemma RemoveKeepsOrder(todos: seq<Todo>, id: int)
    ensures var r := Reduce(todos, Remove(id));
      var idx := Seqs.Positions(LacksId(id), todos, 0);
      && |r| == |idx|
      && (forall k :: 0 <= k < |idx| ==> r[k] == todos[idx[k]])
      && Seqs.Increasing(idx)
      && (forall i :: 0 <= i < |todos| ==> (i in idx <==> todos[i].id != id))
  {
    Seqs.FilterSelectsPositions(LacksId(id), todos, 0);
    assert todos[0..] == todos;
  }

  /** Removing the same id twice gives the list of removing it once. */
  lemma RemoveIdempotent(todos: seq<Todo>, id: int)
    ensures Reduce(Reduce(todos, Remove(id)), Remove(id)) == Reduce(todos, Remove(id))
  {
    Seqs.FilterIdempotent(LacksId(id), todos);
  }

  /** Toggling the same id twice restores the list. */
  lemma ToggleInvolution(todos: seq<Todo>, id: int)
    ensures Reduce(Reduce(todos, Toggle(id)), Toggle(id)) == todos
  {
    Seqs.MapInvolution(Flip(id), todos);
  }

  /** `set` discards the previous list. */
  lemma SetIgnoresPrevious(a: seq<Todo>, b: seq<Todo>, items: seq<Todo>)
    ensures Reduce(a, Set(items)) == Reduce(b, Set(items))
  {
  }

  /** `addTodo`: append `todo`, as the reducer's `add` branch does. */
  function AddTodo(todos: seq<Todo>, todo: Todo): (r: seq<Todo>)
    ensures r == Reduce(todos, Add(todo))
  {
    todos + [todo]
  }

  /** `removeTodo`: its own filter callback, agreeing with the reducer's `remove` branch. */
  function RemoveTodo(todos: seq<Todo>, id: int): (r: seq<Todo>)
    ensures r == Reduce(todos, Remove(id))
  {
    var keep := (t: Todo) => t.id != id;
    Seqs.FilterCongruent(keep, LacksId(id), todos);
    Seqs.Filter(keep, todos)
  }

  /** `toggleTodo`: its own map callback, agreeing with the reducer's `toggle` branch. */
  function ToggleTodo(todos: seq<Todo>, id: int): (r: seq<Todo>)
    ensures r == Reduce(todos, Toggle(id))
  {
    var flip := (t: Todo) => if t.id == id then t.(complete := !t.complete) else t;
    Seqs.MapCongruent(flip, Flip(id), todos);
    Seqs.Map(flip, todos)
  }
}
