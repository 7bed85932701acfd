# Todo-list reducer in Dafny

A model of the state logic of the `TodoList` component in `src/App.jsx`: a
list of todo items `{id, text, complete}`, the `dispatch` reducer that maps
the list and a `{type, payload}` action to a new list, the three direct
updaters `addTodo`, `removeTodo` and `toggleTodo` that repeat its branches,
and the submission rule of the `Control` form, which rejects empty text and
otherwise issues a fresh id from the module-level counter `idSeq`.

Layout:

- `seqs.dfy` — module `Seqs`: `Filter`, `Map` and `Count` with the meaning
  of `Array.prototype.filter`/`map` (fresh result, input untouched), and
  `Positions`, an independent description of which indices a filter keeps.
- `todos.dfy` — module `Todos`: the `Todo` datatype, the id tests the
  reducer uses, and the id predicates (`Ids`, `UniqueIds`, `Matching`).
- `reducer.dfy` — module `Reducer`: the `Action` sum type (with `Unknown`
  for the `default:` branch), `Reduce`, the direct updaters, and the
  properties of each branch.
- `todolist.dfy` — module `TodoList`: the list plus the `idSeq` counter,
  `Submit`, user events (submit, checkbox, remove button) dispatched through
  the bound action creators, and the id-uniqueness invariant over any run.

`remove` and `toggle` act on every item carrying the id, not only the
first: the branches filter and map the whole list (`Matching` counts how
many items go).

## Model

| member | source | states |
|---|---|---|
| Reducer.Reduce | src/App.jsx:135-165 | `set` yields exactly the payload; `add` keeps the old list as a prefix and puts the payload last; `remove` leaves no item with the id, keeps every other item, and shrinks the list by the number of items carrying the id; `toggle` keeps length, ids and texts, negates `complete` exactly where the id matches and leaves other items equal; an unknown type leaves the list unchanged |
| Reducer.RemoveKeepsOrder | src/App.jsx:144-149 | the list after `remove` is the items whose id differs, taken at strictly increasing positions of the old list, so relative order is kept |
| Reducer.RemoveIdempotent | src/App.jsx:145-149 | removing an id a second time changes nothing |
| Reducer.ToggleInvolution | src/App.jsx:151-161 | toggling the same id twice restores the original list |
| Reducer.SetIgnoresPrevious | src/App.jsx:138-139 | the result of `set` does not depend on the previous list |
| Reducer.AddTodo | src/App.jsx:110-112 | the direct `addTodo` updater gives the same list as the reducer's `add` branch |
| Reducer.RemoveTodo | src/App.jsx:114-120 | the direct `removeTodo` updater, with its own filter callback, gives the same list as the reducer's `remove` branch |
| Reducer.ToggleTodo | src/App.jsx:122-133 | the direct `toggleTodo` updater, with its own map callback, gives the same list as the reducer's `toggle` branch |
| Seqs.FilterSelectsPositions | src/App.jsx:146-148 | a filter keeps exactly the elements at the increasing indices where the predicate holds, in that order |
| TodoList.Submit | src/App.jsx:31-47 | empty text leaves list and counter unchanged (and only empty text does); otherwise the counter goes up by exactly one and exactly one item is appended, `complete = false`, with the new counter value as id and the old list untouched before it |
| TodoList.StepPreservesIssued | src/App.jsx:36-44 | a submission, a toggle or a removal keeps ids unique and not above the counter, and never lowers the counter |
| TodoList.RunPreservesIssued | src/App.jsx:36-44 | over any sequence of user events, no two items share an id |
| TodoList.RunIssuesFreshIds | src/App.jsx:40-44 | over any sequence of user events the counter never decreases, and every final item's id was present at the start or was issued during the run, above the starting counter |
| TodoList.SubmitAllAppends | src/App.jsx:36-44 | submitting n non-empty texts appends n incomplete items in order, with ids counting up from the counter's starting value plus one |
| TodoList.StaleLoadCollides | src/App.jsx:40-44 | when the list holds an id above the counter, one submission creates a second item with that id, so uniqueness depends on the starting state |
| TodoList.AddAddRemoveLeavesSecond | src/App.jsx:40-44 | from an empty list, submitting "a" and "b" and removing the first leaves only "b" |

## Left out

- Rendering and hooks (`memo`, `useRef`, `useCallback`, JSX, `Todos`, `TodoItem`): presentation only. The input field being cleared after a submission is not modelled.
- Persistence (`localStorage` read on mount and write on every change, `JSON.parse`/`JSON.stringify`): browser I/O and library code. The mount effect is just a `set` dispatch, which `Reduce` covers.
- The `Date.now()` seed of `idSeq`: the counter starts at any integer.
- React's asynchronous batching of state updates: each dispatch is one synchronous transition.
- The action creators of `./actions`: that file is not part of this model; each is taken to build the `{type, payload}` record directly, so an action is a value of `Action`.
- `bindActionCreates`: calling a bound creator is `dispatch(creator(args))`, which is how `TodoList.Step` applies each event; the dynamic key iteration itself is not modelled.
- TodoList.RunPreservesIssued: uniqueness assumes the list loaded on mount has unique ids, none above the counter's seed; the program only gets this from a clock that moves forward between sessions (`TodoList.StaleLoadCollides` shows a collision otherwise).
- Reducer.Reduce: actions are typed, so a payload of the wrong JavaScript type (a number passed to `set`, a missing `payload`) cannot be expressed.
- TodoList.Submit: ids are unbounded integers; JavaScript numbers lose exactness above 2^53, far beyond a millisecond timestamp plus the submissions a session makes.
- Function-valued (deferred) actions: this component's `dispatch` has no such branch.
