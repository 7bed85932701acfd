/** The item the list holds, and the facts about its ids that the rest of the model talks about. */
module Todos {
  import Seqs

  /** One row of the list: `{id, text, complete}`. */
  datatype Todo = Todo(id: int, text: string, complete: bool)

  /** `t => t.id === id`: an item carries `id`; counts what the remove branch drops. */
  function HasId(id: int): Todo -> bool {
    (t: Todo) => t.id == id
  }

  /** `t => t.id !== id`, the test the remove branch keeps items by. */
  function LacksId(id: int): Todo -> bool {
    (t: Todo) => t.id != id
  }

  /** How many items of `todos` carry `id`. */
  function Matching(todos: seq<Todo>, id: int): nat {
    Seqs.Count(HasId(id), todos)
  }

  /** The ids present in `todos`. */
  function Ids(todos: seq<Todo>): set<int> {
    set i | 0 <= i < |todos| :: todos[i].id
  }

  /** No two items share an id. */
  ghost predicate UniqueIds(todos: seq<Todo>) {
    forall i, j :: 0 <= i < j < |todos| ==> todos[i].id != todos[j].id
  }
}
