/**
  The `TodoList` component as a state machine: the todo list together with
  the module-level id counter `idSeq`, driven by the three things a user can
  do — submit the input, tick a checkbox, click a remove button. Each event
  is one synchronous dispatch through the bound action creators.
 */
module TodoList {
  import Seqs
  import opened Todos
  import opened Reducer

  /** The list and the counter. The counter is seeded from the clock when the
      module loads; here it is any integer. */
  datatype App = App(todos: seq<Todo>, idSeq: int)

  /** `Control.onSubmit` with input text `text`. Empty text is ignored.
      Otherwise the counter is pre-incremented and the new item, carrying the
      new counter value as its id and not yet complete, is dispatched as `add`. */
  function Submit(app: App, text: string): (r: App)
    ensures |text| == 0 <==> r == app
    ensures |text| > 0 ==>
      && r.idSeq == app.idSeq + 1
      && |r.todos| == |app.todos| + 1
      && r.todos[..|app.todos|] == app.todos
      && r.todos[|app.todos|] == Todo(r.idSeq, text, false)
  {
    if |text| == 0 then app
    else
      var id := app.idSeq + 1;
      App(Reduce(app.todos, Add(Todo(id, text, false))), id)
  }

  /** What the user can do: submit the input, tick the checkbox of the item
      with a given id, or click its remove button. */
  datatype Event =
    | Submitted(text: string)
    | Checked(id: int)
    | RemoveClicked(id: int)

  /** One event: the form calls the bound `addTodo`, the checkbox the bound
      `toggleTodo`, the button the bound `removeTodo`; each dispatches its action. */
  function Step(app: App, e: Event): App {
    match e
    case Submitted(text) => Submit(app, text)
    case Checked(id) => app.(todos := Reduce(app.todos, Toggle(id)))
    case RemoveClicked(id) => app.(todos := Reduce(app.todos, Remove(id)))
  }

  /** The events in order, each applied to the state the previous one left. */
  function Run(app: App, events: seq<Event>): App
    decreases |events|
  {
    if |events| == 0 then app else Run(Step(app, events[0]), events[1..])
  }

  /** Every id in the list is distinct, and none is above the counter, so no
      future submission can reuse one. */
  ghost predicate Issued(app: App) {
    && UniqueIds(app.todos)
    && forall i :: 0 <= i < |app.todos| ==> app.todos[i].id <= app.idSeq
  }

  /** Each kind of event keeps ids unique and below the counter, and never
      moves the counter backwards. */
  lemma StepPreservesIssued(app: App, e: Event)
    requires Issued(app)
    ensures Issued(Step(app, e))
    ensures Step(app, e).idSeq >= app.idSeq
  {
    match e
    case Submitted(text) =>
    case Checked(id) =>
    case RemoveClicked(id) =>
      var r := Reduce(app.todos, Remove(id));
      forall i, j | 0 <= i < j < |r|
        ensures r[i].id != r[j].id
      {
        RemoveKeepsOrder(app.todos, id);
        var idx := Seqs.Positions(LacksId(id), app.todos, 0);
        assert idx[i] < idx[j];
      }
  }

  /** Over any sequence of user events, ids stay unique: the list never holds
      two items with the same id. */
  lemma {:induction false} RunPreservesIssued(app: App, events: seq<Event>)
    requires Issued(app)
    ensures Issued(Run(app, events))
    decreases |events|
  {
    if |events| > 0 {
      StepPreservesIssued(app, events[0]);
      RunPreservesIssued(Step(app, events[0]), events[1..]);
    }
  }

  /** Over any sequence of user events the counter only grows, and every item
      at the end either was there at the start (by id) or got an id the
      counter issued during the run, above its starting value. */
  lemma {:induction false} RunIssuesFreshIds(app: App, events: seq<Event>)
    ensures var r := Run(app, events);
      && r.idSeq >= app.idSeq
      && forall i :: 0 <= i < |r.todos| ==>
           r.todos[i].id in Ids(app.todos) || app.idSeq < r.todos[i].id <= r.idSeq
    decreases |events|
  {
    if |events| > 0 {
      var next := Step(app, events[0]);
      RunIssuesFreshIds(next, events[1..]);
      var r := Run(app, events);
      assert r == Run(next, events[1..]);
      forall i | 0 <= i < |r.todos| && r.todos[i].id in Ids(next.todos)
        ensures r.todos[i].id in Ids(app.todos) || app.idSeq < r.todos[i].id <= r.idSeq
      {
        var j :| 0 <= j < |next.todos| && next.todos[j].id == r.todos[i].id;
        match events[0]
        case Submitted(text) =>
          if j < |app.todos| {
            assert next.todos[j] == app.todos[j];
          }
        case Checked(id) =>
          assert next.todos[j].id == app.todos[j].id;
        case RemoveClicked(id) =>
          assert next.todos[j] in app.todos;
      }
    }
  }

  /** The submissions of several non-empty texts append one fresh, incomplete
      item per text, in submission order, with ids counting up from the
      counter's starting value. */
  lemma {:induction false} SubmitAllAppends(app: App, texts: seq<string>)
    requires forall k :: 0 <= k < |texts| ==> |texts[k]| > 0
    ensures var r := Run(app, seq(|texts|, k requires 0 <= k < |texts| => Submitted(texts[k])));
      && r.idSeq == app.idSeq + |texts|
      && r.todos == app.todos + seq(|texts|, k requires 0 <= k < |texts| => Todo(app.idSeq + 1 + k, texts[k], false))
    decreases |texts|
  {
    var events := seq(|texts|, k requires 0 <= k < |texts| => Submitted(texts[k]));
    var added := seq(|texts|, k requires 0 <= k < |texts| => Todo(app.idSeq + 1 + k, texts[k], false));
    if |texts| > 0 {
      var next := Submit(app, texts[0]);
      assert next == App(app.todos + [added[0]], app.idSeq + 1);
      var rest := texts[1..];
      SubmitAllAppends(next, rest);
      assert events[1..] == seq(|rest|, k requires 0 <= k < |rest| => Submitted(rest[k]));
      var restAdded := seq(|rest|, k requires 0 <= k < |rest| => Todo(next.idSeq + 1 + k, rest[k], false));
      assert added == [added[0]] + restAdded;
    }
  }

  /** Starting from an empty list: submit "a", submit "b", then remove the
      first item — only "b" is left, with the second id issued. */
  lemma AddAddRemoveLeavesSecond(seed: int)
    ensures Run(App([], seed), [Submitted("a"), Submitted("b"), RemoveClicked(seed + 1)]).todos
         == [Todo(seed + 2, "b", false)]
  {
    var events := [Submitted("a"), Submitted("b"), RemoveClicked(seed + 1)];
    var s1 := Submit(App([], seed), "a");
    var s2 := Submit(s1, "b");
    assert s2.todos == [Todo(seed + 1, "a", false), Todo(seed + 2, "b", false)];
    assert Run(App([], seed), events) == Run(s1, events[1..]);
    assert Run(s1, events[1..]) == Run(s2, events[2..]);
    var s3 := Step(s2, RemoveClicked(seed + 1));
    assert Run(s2, events[2..]) == s3;
    var r := s3.todos;
    assert |r| == 1 by {
      assert Matching(s2.todos, seed + 1) == 1;
    }
    assert r[0] in s2.todos && r[0].id != seed + 1;
  }

  /** A list that already holds an id above the counter (a stored list from a
      session whose clock ran ahead) makes the next submission reuse that id. */
  lemma StaleLoadCollides(seed: int)
    ensures var r := Run(App([Todo(seed + 1, "old", false)], seed), [Submitted("new")]);
      && r.todos == [Todo(seed + 1, "old", false), Todo(seed + 1, "new", false)]
      && !UniqueIds(r.todos)
  {
    var r := Run(App([Todo(seed + 1, "old", false)], seed), [Submitted("new")]);
    assert r == Submit(App([Todo(seed + 1, "old", false)], seed), "new");
    assert r.todos[0].id == r.todos[1].id;
  }
}
