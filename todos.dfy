/** The to-do list's state (`TodoApp` without its DOM): an ordered list of
    to-dos, newest first, the current view filter, and the saved copy of the
    list that every change rewrites. */
module Todos {
  import opened Wrappers
  import opened Seqs
  import opened Text

  /** One to-do. `id` and `createdAt` come from the clock in the source and
      are given to the model by its caller. */
  datatype Todo = Todo(id: int, text: string, completed: bool, createdAt: string)

  predicate IsDone(t: Todo)
  {
    t.completed
  }

  predicate IsActive(t: Todo)
  {
    !t.completed
  }

  // ---------------------------------------------------------------------
  // Finding and toggling

  /** `todos.find(t => t.id === id)`, as a position. */
  function FirstIndex(todos: seq<Todo>, id: int): (r: Option<nat>)
    ensures r.Some? ==> (r.value < |todos| && todos[r.value].id == id &&
      forall j :: 0 <= j < r.value ==> todos[j].id != id)
    ensures r.None? ==> forall j :: 0 <= j < |todos| ==> todos[j].id != id
  {
    if todos == [] then None
    else if todos[0].id == id then Some(0)
    else
      match FirstIndex(todos[1..], id)
      case None => None
      case Some(i) => Some(i + 1)
  }

  /** Position `j` holds the first to-do with this id. */
  predicate IsFirstWithId(todos: seq<Todo>, id: int, j: int)
  {
    0 <= j < |todos| && todos[j].id == id && forall k :: 0 <= k < j ==> todos[k].id != id
  }

  /** The list after `toggleTodo(id)`: the first to-do with that id has its
      `completed` flag flipped; every other to-do, and the order, stay. */
  function Toggled(todos: seq<Todo>, id: int): (r: seq<Todo>)
    ensures |r| == |todos|
    ensures forall j :: 0 <= j < |todos| ==>
      r[j] == if IsFirstWithId(todos, id, j) then todos[j].(completed := !todos[j].completed) else todos[j]
  {
    match FirstIndex(todos, id)
    case None => todos
    case Some(i) => todos[i := todos[i].(completed := !todos[i].completed)]
  }

  /** Toggling the same id twice restores the list. */
  lemma ToggleTwice(todos: seq<Todo>, id: int)
    ensures Toggled(Toggled(todos, id), id) == todos
  {
    var once := Toggled(todos, id);
    assert forall j :: IsFirstWithId(once, id, j) <==> IsFirstWithId(todos, id, j);
  }

  /** Toggling an id no to-do has changes nothing. */
  lemma ToggleMissing(todos: seq<Todo>, id: int)
    requires forall t: Todo :: t in todos ==> t.id != id
    ensures Toggled(todos, id) == todos
  {
  }

  // ---------------------------------------------------------------------
  // Filtering

  /** The list after `deleteTodo(id)`: `todos.filter(t => t.id !== id)`. */
  function WithoutId(todos: seq<Todo>, id: int): (r: seq<Todo>)
    ensures forall t: Todo :: t in r ==> t.id != id
    ensures IsSubsequence(r, todos)
    ensures forall t: Todo :: t.id != id ==> multiset(r)[t] == multiset(todos)[t]
  {
    FilterIsSubsequence(todos, (t: Todo) => t.id != id);
    forall t: Todo | t.id != id ensures multiset(Filter(todos, (t: Todo) => t.id != id))[t] == multiset(todos)[t] {
      FilterMultiplicity(todos, (t: Todo) => t.id != id, t);
    }
    Filter(todos, (t: Todo) => t.id != id)
  }

  /** The to-dos not yet done, in list order. */
  function ActiveTodos(todos: seq<Todo>): seq<Todo>
  {
    Filter(todos, IsActive)
  }

  /** The to-dos done, in list order. */
  function CompletedTodos(todos: seq<Todo>): seq<Todo>
  {
    Filter(todos, IsDone)
  }

  /** `ActiveTodos` keeps exactly the copies of the undone to-dos, in order. */
  lemma ActiveExactly(todos: seq<Todo>)
    ensures IsSubsequence(ActiveTodos(todos), todos)
    ensures forall t: Todo :: t in ActiveTodos(todos) ==> !t.completed
    ensures forall t: Todo :: !t.completed ==> multiset(ActiveTodos(todos))[t] == multiset(todos)[t]
  {
    FilterIsSubsequence(todos, IsActive);
    forall t: Todo | !t.completed ensures multiset(ActiveTodos(todos))[t] == multiset(todos)[t] {
      FilterMultiplicity(todos, IsActive, t);
    }
  }

  /** `CompletedTodos` keeps exactly the copies of the done to-dos, in order. */
  lemma CompletedExactly(todos: seq<Todo>)
    ensures IsSubsequence(CompletedTodos(todos), todos)
    ensures forall t: Todo :: t in CompletedTodos(todos) ==> t.completed
    ensures forall t: Todo :: t.completed ==> multiset(CompletedTodos(todos))[t] == multiset(todos)[t]
  {
    FilterIsSubsequence(todos, IsDone);
    forall t: Todo | t.completed ensures multiset(CompletedTodos(todos))[t] == multiset(todos)[t] {
      FilterMultiplicity(todos, IsDone, t);
    }
  }

  /** Every to-do is either active or done. */
  lemma {:induction false} ActivePlusCompleted(todos: seq<Todo>)
    ensures |ActiveTodos(todos)| + |CompletedTodos(todos)| == |todos|
    decreases |todos|
  {
    if todos != [] {
      ActivePlusCompleted(todos[1..]);
    }
  }

  /** `getFilteredTodos()` for the filter `filter`: "active" gives exactly the
      undone to-dos and "completed" exactly the done ones, each in list order;
      any other filter gives the whole list. */
  function FilteredTodos(todos: seq<Todo>, filter: string): (r: seq<Todo>)
    ensures filter == "active" ==> (IsSubsequence(r, todos) &&
      (forall t: Todo :: t in r ==> !t.completed) &&
      (forall t: Todo :: !t.completed ==> multiset(r)[t] == multiset(todos)[t]))
    ensures filter == "completed" ==> (IsSubsequence(r, todos) &&
      (forall t: Todo :: t in r ==> t.completed) &&
      (forall t: Todo :: t.completed ==> multiset(r)[t] == multiset(todos)[t]))
    ensures filter != "active" && filter != "completed" ==> r == todos
  {
    ActiveExactly(todos);
    CompletedExactly(todos);
    if filter == "active" then ActiveTodos(todos)
    else if filter == "completed" then CompletedTodos(todos)
    else todos
  }

  /** The three counters `updateStats` shows. */
  datatype Stats = Stats(total: nat, completed: nat, active: nat)

  /** `updateStats()` without the DOM: `active` is computed as
      `total - completed`, and it equals the number of undone to-dos. */
  function TodoStats(todos: seq<Todo>): (s: Stats)
    ensures s.total == |todos| && s.active + s.completed == s.total
    ensures s.completed == |CompletedTodos(todos)| && s.active == |ActiveTodos(todos)|
  {
    ActivePlusCompleted(todos);
    var total := |todos|;
    var completed := |CompletedTodos(todos)|;
    Stats(total, completed, total - completed)
  }

  /** The "active" and "completed" views split the list between them. */
  lemma ViewsPartition(todos: seq<Todo>)
    ensures |FilteredTodos(todos, "active")| + |FilteredTodos(todos, "completed")| == |todos|
  {
    ActivePlusCompleted(todos);
  }

  /** A new to-do is counted once, as active. */
  lemma AddCountsActive(todos: seq<Todo>, t: Todo)
    requires !t.completed
    ensures var before, after := TodoStats(todos), TodoStats([t] + todos);
      after == Stats(before.total + 1, before.completed, before.active + 1)
  {
    assert ([t] + todos)[1..] == todos;
  }

  /** After clearing the completed to-dos, none is completed and the active
      ones all remain. */
  lemma ClearedHasNoCompleted(todos: seq<Todo>)
    ensures TodoStats(ActiveTodos(todos)) == Stats(TodoStats(todos).active, 0, TodoStats(todos).active)
  {
    FilterNone(ActiveTodos(todos), IsDone);
  }

  // ---------------------------------------------------------------------
  // Storage

  /** The list that browser storage yields: the saved one, or an empty list
      when nothing was saved. */
  function LoadedTodos(saved: Option<seq<Todo>>): seq<Todo>
  {
    if saved.Some? then saved.value else []
  }

  /** The `localStorage` record under the key "todos". */
  class TodoStore {
    var saved: Option<seq<Todo>>

    constructor (saved: Option<seq<Todo>>)
      ensures this.saved == saved
    {
      this.saved := saved;
    }
  }

  class TodoApp {
    var todos: seq<Todo>
    var currentFilter: string
    const store: TodoStore

    /** `new TodoApp()`: the saved list, filter "all". */
    constructor (store: TodoStore)
      ensures this.store == store
      ensures todos == LoadedTodos(store.saved) && currentFilter == "all"
    {
      this.store := store;
      todos := LoadedTodos(store.saved);
      currentFilter := "all";
    }

    /** `saveTodos()`: the stored record becomes a copy of the list. */
    method SaveTodos()
      modifies store
      ensures store.saved == Some(todos)
    {
      store.saved := Some(todos);
    }

    /** Saving the list and then opening a new app on the same storage gives
        back this list. */
    method SaveAndReopen() returns (reopened: TodoApp)
      modifies store
      ensures fresh(reopened) && reopened.store == store
      ensures store.saved == Some(todos) && reopened.todos == todos && reopened.currentFilter == "all"
    {
      SaveTodos();
      reopened := new TodoApp(store);
    }

    /** `addTodo()` with the input box holding `input`, the clock reading `id`
        and the formatted time `createdAt`. Blank input is refused and nothing
        changes; otherwise a new undone to-do with the trimmed text goes in
        front of the old ones and the list is saved. */
    method AddTodo(input: string, id: int, createdAt: string) returns (added: bool)
      modifies this`todos, store
      ensures added <==> Trim(input) != []
      ensures !added ==> todos == old(todos) && store.saved == old(store.saved)
      ensures added ==> (|todos| == |old(todos)| + 1 && todos[1..] == old(todos) &&
        todos[0] == Todo(id, Trim(input), false, createdAt) && store.saved == Some(todos))
    {
      var text := Trim(input);
      if text == [] {
        return false;
      }
      var todo := Todo(id, text, false, createdAt);
      todos := [todo] + todos;
      SaveTodos();
      added := true;
    }

    /** `toggleTodo(id)`: flips the first to-do with that id and saves; does
        nothing when no to-do has it. */
    method ToggleTodo(id: int)
      modifies this`todos, store
      ensures todos == Toggled(old(todos), id)
      ensures FirstIndex(old(todos), id).Some? ==> store.saved == Some(todos)
      ensures FirstIndex(old(todos), id).None? ==> todos == old(todos) && store.saved == old(store.saved)
    {
      var found := FirstIndex(todos, id);
      if found.Some? {
        var i := found.value;
        todos := todos[i := todos[i].(completed := !todos[i].completed)];
        SaveTodos();
      }
    }

    /** `deleteTodo(id)` once `confirm` answered `confirmed`: removes every
        to-do with that id and saves. */
    method DeleteTodo(id: int, confirmed: bool)
      modifies this`todos, store
      ensures confirmed ==> todos == WithoutId(old(todos), id) && store.saved == Some(todos)
      ensures !confirmed ==> todos == old(todos) && store.saved == old(store.saved)
    {
      if confirmed {
        todos := WithoutId(todos, id);
        SaveTodos();
      }
    }

    /** The state part of `setFilter(filter)`. */
    method SetFilter(filter: string)
      modifies this`currentFilter
      ensures currentFilter == filter
    {
      currentFilter := filter;
    }

    /** `getFilteredTodos()`: the list as the current filter shows it. */
    function GetFilteredTodos(): (r: seq<Todo>)
      reads this
      ensures IsSubsequence(r, todos)
    {
      PrefixIsSubsequence(todos, []);
      assert todos + [] == todos;
      FilteredTodos(todos, currentFilter)
    }

    /** `clearCompleted()` once `confirm` answered `confirmed`: with nothing
        done it changes nothing; otherwise it keeps exactly the undone to-dos
        in their order and saves. */
    method ClearCompleted(confirmed: bool)
      modifies this`todos, store
      ensures |CompletedTodos(old(todos))| == 0 || !confirmed ==>
        todos == old(todos) && store.saved == old(store.saved)
      ensures |CompletedTodos(old(todos))| > 0 && confirmed ==>
        todos == ActiveTodos(old(todos)) && store.saved == Some(todos)
    {
      var completedCount := |CompletedTodos(todos)|;
      if completedCount == 0 {
        return;
      }
      if confirmed {
        todos := ActiveTodos(todos);
        SaveTodos();
      }
    }

    /** `clearAll()` once `confirm` answered `confirmed`: on an empty list it
        does nothing; otherwise the list becomes empty and is saved. */
    method ClearAll(confirmed: bool)
      modifies this`todos, store
      ensures old(todos) == [] || !confirmed ==> todos == old(todos) && store.saved == old(store.saved)
      ensures old(todos) != [] && confirmed ==> todos == [] && store.saved == Some([])
    {
      if |todos| == 0 {
        return;
      }
      if confirmed {
        todos := [];
        SaveTodos();
      }
    }
  }
}
