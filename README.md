# TodoList: the task collection and its derived views, in Dafny

This project models the core of a single-user to-do list application for iOS.

The core is `TodoViewModel`. It owns the ordered collection of tasks (`todos`) and three view parameters: the search text, the selected category and the sort option. It has four mutators:

- `addTodo` appends a new task.
- `toggleTodo` flips the completion flag of the task with a given id.
- `updateTodo` overwrites the title, due date, priority and category of that task.
- `deleteTodo` removes every task with that id.

It also has two computed views:

- `categories` lists the distinct categories in ascending order.
- `filteredTodos` filters by category, then by search text, then sorts with one of four comparators.

A task is a value record (`Todo`) with a `Priority` that is a raw-valued enum.

Layout, one module per file:

- `wrappers.dfy` (`Wrappers`): `Option`, standing for Swift's optionals.
- `text.dfy` (`Text`): the two string operations the views use.
  - Swift's `String <` becomes lexicographic order on code points (`Less`). The file proves that it is a strict total order.
  - `localizedCaseInsensitiveContains` becomes a substring test after ASCII case folding (`ContainsIgnoringCase`). As in Foundation, an empty search string is found nowhere.
- `todo.dfy` (`TodoModel`): `Priority` with its raw values and the decoding direction, the `Todo` record, and its initializer `NewTodo` with Swift's default arguments.
- `todo_list.dfy` (`TodoList`): the collection as a value. It gives lookup by id (`FirstIndex`) and the new collection each mutator produces (`Toggled`, `Updated`, `Removed`), with lemmas about each.
- `todo_view.dfy` (`TodoView`): the comparator of each `SortOption`, a sort, the two filter steps, a one-pass reference selection, and the category list.
  - The file proves that the comparator is a strict weak ordering.
  - It proves that the filtered view is a permutation of the reference selection, ordered under the comparator.
  - It proves that the category list is strictly ascending and holds exactly the categories present.
- `view_model.dfy` (`ViewModel`): the class `TodoViewModel`.
  - `todos` is a `seq<Todo>` field, and the mutators reassign it.
  - The `ensures` of `ToggleTodo`, `DeleteTodo` and `UpdateTodo` tie the new collection to the matching function in `TodoList` (`Toggled`, `Removed`, `Updated`). Each also states outright which element changes, and that no other element does.
  - The `ensures` of `AddTodo` states the new collection as the old one followed by `NewTodo(…)` from `TodoModel`.
  - Each mutator keeps ids unique.
  - `CreateToggleDelete` is a client scenario. It creates a view model, adds a task, completes it and deletes it, and each step's outcome follows from the methods' contracts alone.

Modelling choices:

- A `UUID` is a natural number and a `Date` an integer timestamp.
- `UUID()` and `Date()` inside the initializer are supplied by the caller of `AddTodo`, as `id` and `now`. The fresh id is stated as "no task in the collection has it". With that, the unique-ids invariant (`Valid`) is preserved by every mutator.
- The mutators receive a task in the source and use only its `id`. The model passes the id.
- `sorted(by:)` is modelled by insertion sort. The model proves what a caller can rely on for a strict weak ordering: the output is a permutation of the input, and no element is followed by one the comparator puts before it. The sort is also stable: tasks that tie keep their original order (`SortStable`).
- The priority sort compares raw strings in descending order. Because 'M' > 'L' > 'H', it places every Medium task first, then Low, then High. It does not place High first. The model keeps this (`PriorityBeforeIsRawRank`, `PriorityExample`).
- The comparators leave ties (all undated tasks tie under the due-date option, for one). Because `sorted(by:)` is stable, tied tasks keep the order they have in the collection. The model proves this for its sort (`SortStable`, `FilteredStable`, `UndatedKeepOrder`).

## Model

| member | source | states |
|---|---|---|
| `Text.Less` | TodoViewModel.swift:57-58 | a string is never `<` itself; when `a < b`, `b` is non-empty and `a` does not start with a larger character than `b`; the order laws are the lemmas below |
| `Text.LessIrreflexive` | TodoViewModel.swift:57-58 | no title is strictly before itself |
| `Text.LessTransitive` | TodoViewModel.swift:57-58 | string `<` is transitive |
| `Text.LessTotal` | TodoViewModel.swift:57-58 | of two different strings, one is `<` the other |
| `Text.LessAsymmetric` | TodoViewModel.swift:57-58 | `a < b` excludes `b < a` |
| `Text.NotLessTransitive` | TodoViewModel.swift:57-58 | "not after" on strings is transitive, so ties under `<` form an equivalence |
| `Text.LowerChar` | TodoViewModel.swift:41-43 | case folding maps exactly 'A'..'Z' to 'a'..'z' and keeps every other character |
| `Text.Lower` | TodoViewModel.swift:41-43 | folding a string keeps its length and folds each character at its position |
| `Text.Contains` | TodoViewModel.swift:41-43 | the substring test holds exactly when the needle occurs at some position of the text |
| `Text.ShiftOccurrence` | TodoViewModel.swift:41-43 | a needle that does not start the text occurs in it exactly when it occurs in the text's tail |
| `Text.LowerSlice` | TodoViewModel.swift:41-43 | folding a slice gives the same slice of the folded string |
| `Text.ContainsIgnoringCase` | TodoViewModel.swift:41-43 | the title contains the search text, ignoring case, exactly when the search text is non-empty and some window of the title equals it up to case folding |
| `Text.LowerIdempotent` | TodoViewModel.swift:41-43 | folding twice is folding once |
| `Text.ContainsIgnoringCaseOfLowered` | TodoViewModel.swift:41-43 | the search result does not change when either the title or the search text is case-folded first |
| `TodoModel.RawValue` | Todo.swift:10-14 | every priority's raw value is one of "High", "Medium", "Low" |
| `TodoModel.PriorityFromRaw` | Todo.swift:10-14 | decoding a raw value succeeds exactly for the three raw values |
| `TodoModel.RawValueRoundTrip` | Todo.swift:10-14 | decoding a priority's raw value gives back that priority |
| `TodoModel.RawValueInjective` | Todo.swift:10-14 | two priorities have the same raw value only if they are the same case |
| `TodoModel.PriorityFromRawInverse` | Todo.swift:10-14 | decoding gives a priority exactly when that priority's raw value is the input |
| `TodoModel.NewTodo` | Todo.swift:25-37 | the initializer copies every argument, including the supplied id and creation time, into the matching field |
| `TodoModel.NewTodoDefaults` | Todo.swift:25-30 | with the optional arguments omitted, a task is not completed, has no due date, has medium priority and is in category "Default" |
| `TodoList.FirstIndex` | TodoViewModel.swift:75 | `firstIndex(where:)` gives none exactly when no task has the id; otherwise an in-range index holding the id, with no match before it |
| `TodoList.FirstIndexDependsOnlyOnIds` | TodoViewModel.swift:75 | two collections with the same ids at the same positions give the same first match |
| `TodoList.Toggled` | TodoViewModel.swift:74-78 | toggling keeps the length and the id at every position (so unique ids stay unique); the full effect is `ToggledSpec` |
| `TodoList.ToggledSpec` | TodoViewModel.swift:74-78 | toggling keeps the length, is a no-op when the id is absent, and otherwise flips only `isCompleted` of the first match and leaves every other task equal |
| `TodoList.ToggleTwice` | TodoViewModel.swift:74-78 | toggling the same id twice restores the collection |
| `TodoList.Updated` | TodoViewModel.swift:84-91 | updating keeps the length and the id at every position; the full effect is `UpdatedSpec` |
| `TodoList.UpdatedSpec` | TodoViewModel.swift:84-91 | updating keeps the length, is a no-op when the id is absent, and otherwise sets the four fields of the first match while keeping its id, completion and creation date and every other task |
| `TodoList.UpdateIdempotent` | TodoViewModel.swift:84-91 | updating twice with the same values equals updating once |
| `TodoList.Removed` | TodoViewModel.swift:80-82 | `removeAll(where:)` never lengthens the collection, and every task it keeps was in it and has another id; multiplicities are `RemovedSpec` |
| `TodoList.RemovedSpec` | TodoViewModel.swift:80-82 | after removal no task has the id; every task with another id keeps its multiplicity, and tasks with the id are gone |
| `TodoList.RemoveAbsent` | TodoViewModel.swift:80-82 | removing an absent id leaves the collection unchanged |
| `TodoList.RemovedAppend` | TodoViewModel.swift:80-82 | removing from a concatenation removes from each part, in order |
| `TodoList.RemoveUnique` | TodoViewModel.swift:80-82 | with unique ids, removal deletes exactly the matching task and keeps the others in their original order |
| `TodoList.RemovePreservesUnique` | TodoViewModel.swift:80-82 | removal keeps ids unique |
| `TodoList.RemovalIsFinal` | TodoViewModel.swift:74-91 | after a removal, toggling or updating that id changes nothing |
| `TodoList.AppendPreservesUnique` | TodoViewModel.swift:69-72 | appending a task with a fresh id keeps ids unique |
| `TodoView.Before` | TodoViewModel.swift:46-59 | the comparator never puts a task before itself; that it is a strict weak ordering is the lemmas below |
| `TodoView.PriorityBeforeIsRawRank` | TodoViewModel.swift:55-56 | the descending raw-value comparison puts a before b exactly when a's priority ranks earlier in the order Medium, Low, High |
| `TodoView.BeforeIrreflexive` | TodoViewModel.swift:46-59 | under every sort option no task comes before itself |
| `TodoView.BeforeAsymmetric` | TodoViewModel.swift:46-59 | under every sort option, a before b excludes b before a |
| `TodoView.BeforeTransitive` | TodoViewModel.swift:46-59 | every sort option's comparator is transitive |
| `TodoView.NotBeforeTransitive` | TodoViewModel.swift:46-59 | every comparator's "not after" is transitive, so each comparator is a strict weak ordering as `sorted(by:)` requires |
| `TodoView.Insert` | TodoViewModel.swift:46 | inserting adds exactly the one element to the multiset |
| `TodoView.Sort` | TodoViewModel.swift:46 | the sorted list is a permutation of its input; its order and its stability are `SortSorted` and `SortStable` |
| `TodoView.InsertSorted` | TodoViewModel.swift:46-59 | inserting into an ordered list keeps it ordered under the comparator |
| `TodoView.SortSorted` | TodoViewModel.swift:46-59 | the sorted list is ordered under the comparator: no element is followed by one the comparator puts before it |
| `TodoView.Where` | TodoViewModel.swift:36-43 | `filter` keeps exactly the tasks meeting the condition, each with its multiplicity, and nothing else |
| `TodoView.WhereWhere` | TodoViewModel.swift:35-43 | filtering twice equals filtering once by the conjunction of the two conditions |
| `TodoView.WhereAll` | TodoViewModel.swift:35-43 | a filter every task passes changes nothing |
| `TodoView.WhereSame` | TodoViewModel.swift:35-43 | filters with conditions that agree on every task give the same list |
| `TodoView.FilterSteps` | TodoViewModel.swift:33-43 | the two `filter` steps, with the closures of :37 (`InCategory`) and :42 (`TitleMatches`): every task left after the category and search filters is in the collection, in the selected category (if any) and matches the search text (if any) |
| `TodoView.Filtered` | TodoViewModel.swift:32-62 | `filteredTodos` is ordered under the selected comparator and holds only tasks of the collection that pass both filters |
| `TodoView.FilterStepsAreSelection` | TodoViewModel.swift:33-43 | the category step then the search step equal one in-order pass keeping tasks in the selected category (any, when none is selected) whose title contains the search text (any, when it is empty) |
| `TodoView.FilteredSpec` | TodoViewModel.swift:32-62 | `filteredTodos` is a permutation of that selection, every task in it is in the collection and passes both filters, and it is ordered under the selected comparator |
| `TodoView.FilteredOrder` | TodoViewModel.swift:46-58 | by creation date the view is non-increasing; alphabetically titles are non-decreasing; by due date every dated task precedes every undated one and dates ascend; by priority all Medium precede all Low, which precede all High |
| `TodoView.WhereAppend` | TodoViewModel.swift:37-42 | `filter` distributes over concatenation, so the tasks it keeps stay in their original order |
| `TodoView.TiesUnordered` | TodoViewModel.swift:46-59 | the comparator puts no task of a tie class before another of the same class |
| `TodoView.WhereSwap` | TodoViewModel.swift:46 | swapping two adjacent tasks that do not both meet a condition leaves the filtered list unchanged |
| `TodoView.InsertStable` | TodoViewModel.swift:46 | insertion puts the new task before every task the comparator does not separate from it |
| `TodoView.SortKeepsUnordered` | TodoViewModel.swift:46 | sorting keeps the relative order of the tasks in any group the comparator does not order among themselves |
| `TodoView.SortStable` | TodoViewModel.swift:46-59 | `sorted(by:)` is stable: within every tie class, the sorted list lists the tasks in their original order |
| `TodoView.FilteredStable` | TodoViewModel.swift:32-62 | tasks that tie in `filteredTodos` appear in the order they have in the collection |
| `TodoView.UndatedKeepOrder` | TodoViewModel.swift:50-53 | sorting undated tasks by due date leaves them in their original order |
| `TodoView.UndatedTie` | TodoViewModel.swift:50-53 | two undated tasks tie under the due-date comparator |
| `TodoView.AddCategory` | TodoViewModel.swift:28-30 | adding a category to a strictly ascending list keeps it strictly ascending and adds exactly that category |
| `TodoView.Categories` | TodoViewModel.swift:28-30 | `categories` is strictly ascending (sorted, no duplicates) and contains exactly the categories occurring in the collection |
| `TodoView.AscendingUnique` | TodoViewModel.swift:28-30 | two strictly ascending lists with the same elements are equal, so the category list is the one determined by the category set |
| `TodoView.CategoriesDistinct` | TodoViewModel.swift:28-30 | the category list has no duplicates |
| `TodoView.SortedChain` | TodoViewModel.swift:46-59 | a list ordered under the comparator holding three tasks, each strictly before the next, lists them in that order; the examples below follow from this and the order and permutation properties of the sort alone |
| `TodoView.DateCreatedExample` | TodoViewModel.swift:48-49 | three tasks created at increasing times sort newest first |
| `TodoView.DueDateExample` | TodoViewModel.swift:50-54 | an early-dated, an undated and a later-dated task sort as early, later, undated |
| `TodoView.PriorityExample` | TodoViewModel.swift:55-56 | a High, a Medium and a Low task sort as Medium, Low, High |
| `TodoView.AlphabeticalExample` | TodoViewModel.swift:57-58 | "banana", "Apple", "cherry" sort as "Apple", "banana", "cherry" (code-point order, upper case first) |
| `ViewModel.TodoViewModel.constructor` | TodoViewModel.swift:65-67 | a new view model holds the loaded collection, or the empty one when nothing was stored or decoding failed; empty search, no category, sorted by creation date; ids are unique when the loaded collection's are |
| `ViewModel.TodoViewModel.Valid` | TodoViewModel.swift:74-91 | the unique-ids invariant the id-based mutators rely on: looking up any task's id finds exactly that task |
| `ViewModel.TodoViewModel.Categories` | TodoViewModel.swift:28-30 | the property is strictly ascending and holds exactly the categories of `todos` |
| `ViewModel.TodoViewModel.FilteredTodos` | TodoViewModel.swift:32-62 | the property is a permutation of the tasks passing both filters, each in `todos`, ordered under `sortOption` |
| `ViewModel.TodoViewModel.AddTodo` | TodoViewModel.swift:69-72 | `todos` grows by one; the old tasks are an unchanged prefix; the new last task has the given fields, the fresh id, the current time and `isCompleted` false; ids stay unique |
| `ViewModel.TodoViewModel.ToggleTodo` | TodoViewModel.swift:74-78 | flips `isCompleted` of the first task with the id and changes nothing else; no-op when absent; ids stay unique |
| `ViewModel.TodoViewModel.DeleteTodo` | TodoViewModel.swift:80-82 | no task with the id remains; every other task keeps its multiplicity; no-op when absent; with unique ids exactly the matching task is removed and order is kept |
| `ViewModel.TodoViewModel.UpdateTodo` | TodoViewModel.swift:84-91 | overwrites title, due date, priority and category of the first task with the id; keeps its id, completion and creation date and all other tasks; no-op when absent |
| `ViewModel.TodoViewModel.SubmitNewTodo` | TodoList/ContentView.swift:104-111 | the Add button adds a task exactly when the title is non-empty, with category "Default" when the category field is empty |
| `ViewModel.TodoViewModel.SelectCategory` | TodoList/ContentView.swift:42 | choosing "All" clears the category filter; any other choice selects that category |
| `ViewModel.DeletedNotShown` | TodoViewModel.swift:80-82 | after deleting an id, no view of the remaining collection shows a task with it |

## Left out

- Persistence is left out. This covers `saveTodos`, the `didSet` hook that calls it, and the JSON encoding behind both (TodoViewModel.swift:11-15, 104-112). It is storage I/O and library encoding. For `loadTodos`, the constructor only takes the decoded result, which is None when nothing is stored or decoding failed.
- `ObservableObject`/`@Published` change notification is framework plumbing and is left out.
- TodoRowView.swift is rendering only: the colour of a priority, and an overdue check that reads the wall clock. The rest of ContentView.swift is SwiftUI layout. Only its two rules that reach the core are modelled: `SubmitNewTodo` and `SelectCategory`.
- `UUID()` and `Date()` are left out. They become parameters: a fresh natural-number id and an integer time. `Date` is a floating-point interval in the source, and its precision is not modelled.
- `Text.ContainsIgnoringCase`: `localizedCaseInsensitiveContains` is locale-aware and folds Unicode case. The model folds only ASCII letters. The search also runs without the literal option, so Foundation matches canonically equivalent sequences: "e\u{301}" (e plus a combining acute accent) finds "é" (U+00E9). The model compares code points, so it finds no match there.
- `Text.Less`: Swift's `String <` compares by Unicode canonical equivalence. The model compares code points, which gives the same order only for strings already in Unicode normalization form C (NFC). Even single characters can differ: U+2126 OHM SIGN is canonically equivalent to U+03A9 GREEK CAPITAL LETTER OMEGA, but their code points compare differently.
- `TodoView.Shown`, `TodoView.Categories`: the category filter (TodoViewModel.swift:37) and the duplicate removal by `Set` (TodoViewModel.swift:29) use Swift's `String ==`, which is canonical equivalence. The model uses code-point equality, so two categories that differ only in normalization are one category in the source and two in the model.
- `TodoView.Sort`: the model sorts by insertion rather than by the standard library's algorithm. It proves the properties `sorted(by:)` guarantees for a strict weak ordering: the output is a permutation, it is ordered under the comparator, and it is stable. Running time is not modelled.
