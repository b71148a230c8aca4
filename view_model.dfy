/**
  `TodoViewModel` (TodoViewModel.swift): the object that owns the task
  collection and the three view parameters, with the four mutators that
  change `todos` in place and the two computed views.

  The mutators take the id of the task the caller passes (`todo.id`).
  `UUID()` and `Date()` are supplied by the caller of `AddTodo`: `id` is a
  fresh identifier, one no task of the collection carries, and `now` the
  current time.
 */
module ViewModel {
  import opened Wrappers
  import opened TodoModel
  import opened TodoList
  import opened TodoView

  class TodoViewModel {
    var todos: seq<Todo>
    var searchText: string
    var selectedCategory: Option<string>
    var sortOption: SortOption

    /**
      `init()`, which runs `loadTodos()`: `snapshot` is the decoded stored
      collection, or None when nothing is stored or decoding fails, in which
      case the collection keeps its initial empty value.
     */
    constructor(snapshot: Option<seq<Todo>>)
      ensures todos == (if snapshot.Some? then snapshot.value else [])
      ensures searchText == "" && selectedCategory == None && sortOption == ByDateCreated
      ensures (snapshot.None? || UniqueIds(snapshot.value)) ==> Valid()
    {
      todos := [];
      searchText := "";
      selectedCategory := None;
      sortOption := ByDateCreated;
      if snapshot.Some? {
        todos := snapshot.value;
      }
    }

    /**
      Every id occurs at most once in the collection, so looking a task up by
      its own id finds that very task.
     */
    predicate Valid()
      reads this
      ensures Valid() ==> forall i :: 0 <= i < |todos| ==> FirstIndex(todos, todos[i].id) == Some(i)
    {
      UniqueIds(todos)
    }

    /** `categories`: the distinct categories of the collection, ascending. */
    function Categories(): (r: seq<string>)
      reads this
      ensures StrictlyAscending(r)
      ensures forall c :: c in r <==> c in CategorySet(todos)
    {
      TodoView.Categories(todos)
    }

    /**
      `filteredTodos`: a permutation of the tasks that pass both filters,
      ordered under the selected comparator.
     */
    function FilteredTodos(): (r: seq<Todo>)
      reads this
      ensures multiset(r) == multiset(Selection(todos, searchText, selectedCategory))
      ensures forall t :: t in r ==> t in todos && Shown(t, searchText, selectedCategory)
      ensures Sorted(sortOption, r)
    {
      FilteredSpec(todos, searchText, selectedCategory, sortOption);
      Filtered(todos, searchText, selectedCategory, sortOption)
    }

    /** `addTodo`: append a new open task with the given fields. */
    method AddTodo(title: string, dueDate: Option<Time>, priority: Priority, category: string,
                   id: Id, now: Time)
      requires !HasId(todos, id)
      modifies this`todos
      ensures todos == old(todos) + [NewTodo(id, title, now, dueDate := dueDate, priority := priority, category := category)]
      ensures |todos| == |old(todos)| + 1 && todos[..|old(todos)|] == old(todos)
      ensures var t := todos[|todos| - 1];
        && t.id == id && t.title == title && !t.isCompleted && t.dateCreated == now
        && t.dueDate == dueDate && t.priority == priority && t.category == category
      ensures old(Valid()) ==> Valid()
    {
      var todo := NewTodo(id, title, now, dueDate := dueDate, priority := priority, category := category);
      if Valid() {
        AppendPreservesUnique(todos, todo);
      }
      todos := todos + [todo];
    }

    /** `toggleTodo`: flip `isCompleted` of the first task with this id; no-op when absent. */
    method ToggleTodo(id: Id)
      modifies this`todos
      ensures todos == Toggled(old(todos), id)
      ensures |todos| == |old(todos)|
      ensures !HasId(old(todos), id) ==> todos == old(todos)
      ensures HasId(old(todos), id) ==>
        var i := FirstIndex(old(todos), id).value;
        && todos[i] == old(todos)[i].(isCompleted := !old(todos)[i].isCompleted)
        && forall k :: 0 <= k < |todos| && k != i ==> todos[k] == old(todos)[k]
      ensures old(Valid()) ==> Valid()
    {
      var index := FirstIndex(todos, id);
      if index.Some? {
        var i := index.value;
        todos := todos[i := todos[i].(isCompleted := !todos[i].isCompleted)];
      }
    }

    /** `deleteTodo`: remove every task with this id. */
    method DeleteTodo(id: Id)
      modifies this`todos
      ensures todos == Removed(old(todos), id)
      ensures !HasId(todos, id)
      ensures forall t: Todo :: multiset(todos)[t] == if t.id == id then 0 else multiset(old(todos))[t]
      ensures !HasId(old(todos), id) ==> todos == old(todos)
      ensures old(Valid()) && HasId(old(todos), id) ==>
        var i := FirstIndex(old(todos), id).value;
        todos == old(todos)[..i] + old(todos)[i + 1..]
      ensures old(Valid()) ==> Valid()
    {
      RemovedSpec(todos, id);
      if HasId(todos, id) {
        if Valid() {
          RemoveUnique(todos, id);
          RemovePreservesUnique(todos, id);
        }
      } else {
        RemoveAbsent(todos, id);
      }
      todos := Removed(todos, id);
    }

    /**
      `updateTodo`: overwrite title, due date, priority and category of the
      first task with this id; its id, completion and creation date stay.
     */
    method UpdateTodo(id: Id, title: string, dueDate: Option<Time>, priority: Priority, category: string)
      modifies this`todos
      ensures todos == Updated(old(todos), id, title, dueDate, priority, category)
      ensures |todos| == |old(todos)|
      ensures !HasId(old(todos), id) ==> todos == old(todos)
      ensures HasId(old(todos), id) ==>
        var i := FirstIndex(old(todos), id).value;
        && todos[i] == old(todos)[i].(title := title, dueDate := dueDate, priority := priority, category := category)
        && todos[i].id == id && todos[i].isCompleted == old(todos)[i].isCompleted
        && todos[i].dateCreated == old(todos)[i].dateCreated
        && forall k :: 0 <= k < |todos| && k != i ==> todos[k] == old(todos)[k]
      ensures old(Valid()) ==> Valid()
    {
      var index := FirstIndex(todos, id);
      if index.Some? {
        var i := index.value;
        todos := todos[i := todos[i].(title := title, dueDate := dueDate, priority := priority, category := category)];
      }
    }

    /**
      The "Add" button of the new-task form (ContentView.swift): nothing
      happens for an empty title, and an empty category becomes "Default".
     */
    method SubmitNewTodo(title: string, dueDate: Option<Time>, priority: Priority, categoryInput: string,
                         id: Id, now: Time) returns (added: bool)
      requires !HasId(todos, id)
      modifies this`todos
      ensures added <==> title != ""
      ensures !added ==> todos == old(todos)
      ensures added ==> todos == old(todos) + [NewTodo(id, title, now, dueDate := dueDate, priority := priority,
                                                       category := if categoryInput == "" then "Default" else categoryInput)]
      ensures old(Valid()) ==> Valid()
    {
      added := title != "";
      if added {
        AddTodo(title, dueDate, priority, if categoryInput == "" then "Default" else categoryInput, id, now);
      }
    }

    /** The filter menu (ContentView.swift): "All" clears the category filter. */
    method SelectCategory(choice: string)
      modifies this`selectedCategory
      ensures selectedCategory == if choice == "All" then None else Some(choice)
    {
      selectedCategory := if choice == "All" then None else Some(choice);
    }
  }

  /** A deleted task is absent from every view of what remains. */
  lemma DeletedNotShown(ts: seq<Todo>, id: Id, search: string, category: Option<string>, opt: SortOption)
    ensures forall t :: t in Filtered(Removed(ts, id), search, category, opt) ==> t.id != id
  {
    var rest := Removed(ts, id);
    RemovedSpec(ts, id);
    FilteredSpec(rest, search, category, opt);
    forall t | t in Filtered(rest, search, category, opt) ensures t.id != id {
      var i :| 0 <= i < |rest| && rest[i] == t;
    }
  }

  /** Create a task, complete it and delete it again; every step follows from the contracts alone. */
  method CreateToggleDelete(title: string, now: Time)
  {
    var model := new TodoViewModel(None);
    model.AddTodo(title, None, Low, "Home", 1, now);
    assert |model.todos| == 1 && !model.todos[0].isCompleted && model.todos[0].category == "Home";
    model.ToggleTodo(1);
    assert model.todos[0].isCompleted;
    model.DeleteTodo(1);
    assert model.todos == [];
    assert model.Categories() == [];
  }
}
