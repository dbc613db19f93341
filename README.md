# To-do list core in Dafny

This project models the in-memory core of a single-page to-do list widget. The
widget keeps a list of tasks. Each task has an id, a text, a completion flag,
an optional due date, a priority (high, medium or low) and a creation
instant. The core has two parts.

- The **task list store** (`store.dfy`) has three operations, and each one
  replaces the whole list. `addTodo` ignores blank input and otherwise
  appends a new task. `toggleTodo` flips the completion flag of the tasks
  with a given id. `deleteTodo` drops the tasks with a given id.
- The **view deriver** (`view.dfy`) computes what is shown. It holds the
  priority ranks (`PRIORITY_ORDER`), the day-granularity overdue flag, the
  all/active/completed filter and the completed and active counts. It also
  holds the three-mode comparator of `sortTodos`, which sorts a copy of the
  filtered list.

Supporting modules:

- `types.dfy` holds the data model of `src/types.ts`.
- `text.dfy` holds ECMAScript's `String.prototype.trim`.
- `seqs.dfy` holds an order-preserving filter, the counterpart of
  `Array.prototype.filter`.
- `sorting.dfy` holds a stable sort driven by a three-way comparator, the
  counterpart of `Array.prototype.sort(compareFn)`. That sort has been stable
  since ES2019.

Dates and clocks are integers:

- A due date is a day number, `Option<int>`. `None` is the `null` of a task
  without a date.
- The date field of the add form is also an `Option<int>`, where `None`
  stands for the empty string. So `dueDate || null` keeps the picked date
  and turns the empty field into `None`.
- `createdAt` is a millisecond timestamp.
- "Today" (a day number), "now" (a timestamp) and the fresh id are
  parameters.

The due-date part of the comparator is the millisecond difference between
two midnights: the day difference times `MsPerDay` (86 400 000).

The comparator is proved to be a total preorder for every sort mode
(`View.CompareIsTotalPreorder`). The sort of a copy is an array insertion
sort. It is proved equal to a functional insertion sort. That result is
proved to be:

- a permutation of the input;
- ordered by the comparator, so every open task comes before every completed
  one and each mode's field-by-field order holds;
- stable: the tasks of one tie class keep their input order.

Notes on the code's behaviour:

- **Equal due dates.** In `dueDate` mode, two tasks due on the same day
  compare as equal. The comparator returns the date difference, 0, before it
  looks at the priority (`src/App.tsx:98-100`). Priority ranks only order two
  tasks that both have no due date. `View.ExampleSameDayKeepsOrder` shows
  this.
- **No bulk removal.** There is no operation that clears all completed tasks;
  tasks leave the list only through `deleteTodo`.
- **Start-up load.** The saved list is parsed as it is, with no recovery for
  malformed data (`src/App.tsx:20`). The store's constructor takes the loaded
  list as it is.
- **Ids.** Ids come from `Date.now()` (`src/App.tsx:36`) and are not
  guaranteed unique. Every operation keeps ids unique only when the added id
  is fresh, and that freshness is a hypothesis of `Store.AddKeepsUniqueIds`,
  not a precondition of adding.

## Model

| member | source | states |
|---|---|---|
| `Types.PriorityCases` | src/types.ts:1 | a priority is exactly one of high, medium and low |
| `Types.TodoFields` | src/types.ts:3-10 | a task is determined by its six fields, of which only the due date may be absent |
| `Types.FilterTypeCases` | src/types.ts:12 | a filter selector is exactly one of all, active and completed |
| `Types.SortTypeCases` | src/types.ts:13 | a sort selector is exactly one of priority, due date and created |
| `Text.Trim` | src/App.tsx:33 | `trim()` yields the piece of the input after its leading white space that neither begins nor ends with white space; everything cut away on either side is white space (ECMAScript WhiteSpace and LineTerminator characters) |
| `Text.BlankIffAllWhitespace` | src/App.tsx:33 | `!inputText.trim()` holds exactly when the input consists of white space only (the empty string included) |
| `Text.TrimIdempotent` | src/App.tsx:37 | trimming an already trimmed text changes nothing |
| `Store.AddTodo` | src/App.tsx:32-44 | blank input leaves the list unchanged; otherwise the list grows by exactly one, the old list is an unchanged prefix, and the new last task has the given id, the trimmed text, `completed == false`, the date field's value (`None` for an empty date field), the selected priority and the creation instant `now` |
| `Store.AddWhitespaceOnlyIsNoOp` | src/App.tsx:33 | an input of white space only, the empty string included, adds nothing |
| `Store.AddKeepsStoredTexts` | src/App.tsx:33-37 | if every text in the list is trimmed and non-blank, that still holds after an add |
| `Store.AddKeepsUniqueIds` | src/App.tsx:35-44 | if the ids are unique and the new id is not yet in the list, the ids stay unique after an add |
| `Store.ToggleTodo` | src/App.tsx:50-54 | the length and order are kept; `completed` is flipped exactly on the tasks whose id equals the argument, and no other field of any task changes |
| `Store.ToggleTwice` | src/App.tsx:50-54 | toggling the same id twice restores the original list |
| `Store.ToggleUnknown` | src/App.tsx:50-54 | toggling an id that no task carries leaves the list unchanged |
| `Store.ToggleKeepsInvariants` | src/App.tsx:50-54 | toggling keeps unique ids unique and keeps every text trimmed and non-blank |
| `Seqs.Filter` | src/App.tsx:57 | `filter` keeps exactly the elements satisfying the callback and returns nothing longer than its input |
| `Store.DeleteTodo` | src/App.tsx:56-58 | no remaining task has the deleted id, every task of the input remains exactly when its id differs, and the result holds only tasks of the input, each at most as often as there |
| `Store.DeleteAppend` | src/App.tsx:57 | deleting distributes over concatenation, so the surviving tasks keep their original relative order |
| `Store.DeleteUnknown` | src/App.tsx:57 | deleting an id that no task carries leaves the list unchanged |
| `Store.DeleteTwice` | src/App.tsx:57 | a second delete of the same id is a no-op |
| `Store.DeleteKeepsStoredTexts` | src/App.tsx:57 | deleting keeps every text trimmed and non-blank |
| `Store.DeleteKeepsUniqueIds` | src/App.tsx:57 | deleting keeps unique ids unique |
| `Store.DeletePresentRemovesOne` | src/App.tsx:56-58 | with unique ids, deleting an id that is present shortens the list by exactly one |
| `Store.TodoStore.constructor` | src/App.tsx:18-21 | the store starts from the list read at start-up |
| `Store.TodoStore.Add` | src/App.tsx:32-48 | the new `todos` is `AddTodo` of the old one; stored texts stay trimmed and non-blank; unique ids stay unique when the new id is fresh |
| `Store.TodoStore.Toggle` | src/App.tsx:50-54 | the new `todos` is `ToggleTodo` of the old one; both invariants are kept |
| `Store.TodoStore.Delete` | src/App.tsx:56-58 | the new `todos` is `DeleteTodo` of the old one; both invariants are kept |
| `View.PriorityOrder` | src/App.tsx:5-9 | the ranks are 0, 1 and 2, with 0 exactly for high and 2 exactly for low |
| `View.PriorityOrderInjective` | src/App.tsx:5-9 | two priorities have the same rank only if they are equal, so the rank orders the three priorities totally |
| `View.IsOverdue` | src/App.tsx:60-66 | a task without a due date or a completed task is never overdue; otherwise it is overdue exactly when its due day is before today's day |
| `View.DueTodayNotOverdue` | src/App.tsx:60-66 | a task due today is not overdue |
| `View.OverdueStaysOverdue` | src/App.tsx:60-66 | a task overdue today is also overdue on every later day |
| `View.Matches` | src/App.tsx:113-117 | the `filteredTodos` callback: `all` keeps every task, `active` exactly the open ones, `completed` exactly the completed ones |
| `View.FilterTodos` | src/App.tsx:113-117 | every shown task matches the filter (`active`: not completed, `completed`: completed, `all`: any); a task of the list is shown exactly when it matches; the result is a sub-multiset of the list |
| `View.FilterAllIsIdentity` | src/App.tsx:116 | the `all` filter returns the list unchanged |
| `View.FilterKeepsOrder` | src/App.tsx:113-117 | filtering distributes over concatenation, so the shown tasks keep the list's order |
| `View.ActiveCompletedPartition` | src/App.tsx:114-115 | the `active` and `completed` views together are as long as the list |
| `View.CompletedCount` | src/App.tsx:120 | the completed count is at most the length of the list |
| `View.ActiveCount` | src/App.tsx:121 | `todos.length - completedCount` is the number of tasks the `active` filter shows |
| `View.CountsMatchFilters` | src/App.tsx:120-121 | the completed count is the size of the `completed` view, the active count the size of the `active` view, and the two add up to the list length |
| `View.Compare` | src/App.tsx:85-110 | the `sortTodos` comparator: tasks that differ in completion never tie and the open one goes first; a task ties with itself; in `created` mode the newer task may go first |
| `View.CompareMeansInOrder` | src/App.tsx:86-109 | the comparator lets `a` go first exactly when the field-by-field order holds: open tasks before completed ones; then for `priority`, rank ascending with equal ranks by due date ascending and dated before undated; for `dueDate`, date ascending with dated before undated and two undated tasks by rank; for `created`, newest first |
| `View.CompareReflexive` | src/App.tsx:85-110 | every task ties with itself |
| `View.CompareAntisymmetric` | src/App.tsx:85-110 | swapping the two tasks negates the comparator |
| `View.CompareTransitive` | src/App.tsx:85-110 | if `a` may go before `b` and `b` before `c`, then `a` may go before `c` |
| `View.CompareIsTotalPreorder` | src/App.tsx:85-110 | for every sort mode, the comparator handed to the sort is antisymmetric and transitive, i.e. a total preorder |
| `View.SortedMeansInOrder` | src/App.tsx:86-108 | in a list sorted by the comparator every open task precedes every completed task, and every two tasks stand in the field-by-field order |
| `View.ExampleCompletedLast` | src/App.tsx:86-91 | by priority, A (high, open), B (low, completed), C (medium, open) sort as A, C, B |
| `View.ExampleDueDateOrder` | src/App.tsx:97-102 | by due date, X (day 10), Y (no date), Z (day 5), all open, sort as Z, X, Y |
| `View.ExampleSameDayKeepsOrder` | src/App.tsx:97-100 | by due date, two open tasks due on the same day keep their input order even when their priorities differ |
| `Sorting.SortPermutation` | src/App.tsx:85 | the sort returns a permutation of its input |
| `Sorting.SortSorted` | src/App.tsx:85 | for a total-preorder comparator, the sort returns its input ordered by the comparator |
| `Sorting.SortStable` | src/App.tsx:85 | for a total-preorder comparator, the elements tying with any given element appear in the result in their input order |
| `Sorting.InsertionSort` | src/App.tsx:85 | sorting the array in place leaves in it the stable insertion sort of its old contents |
| `View.SortTodos` | src/App.tsx:84-111 | a fresh copy of the input is sorted, and the input is left untouched; the result is the stable sort of the input, a permutation of it, with every open task before every completed one, every two tasks in the field-by-field order, and tied tasks in input order |
| `View.DeriveView` | src/App.tsx:113-119 | the displayed list is the sorted filtered list: a permutation of the filtered tasks, each matching the filter, in the field-by-field order |

## Left out

- Rendering: the JSX return block, CSS class names, emoji labels and `PRIORITY_TEXT` (`src/App.tsx:11-15`, `126-245`). These are presentation only.
- `formatDate` (`src/App.tsx:68-82`). Its Today/Tomorrow/locale text depends on the local clock and on `toLocaleDateString`.
- Persistence via `localStorage` and `JSON.parse`/`JSON.stringify` (`src/App.tsx:18-21`, `28-30`). These are an external key-value store and a library serialiser. The constructor receives whatever list was loaded.
- React state mechanics. This includes the form fields `inputText`, `dueDate` and `priority`, their defaults (priority `medium`) and their reset after an add (`src/App.tsx:22-24`, `45-47`). They are UI state, so the form values are parameters of `Store.TodoStore.Add`.
- Id and clock calls (`Date.now()`, `new Date()`). They become the parameters `id`, `now` and `today`.
- Real `Date` arithmetic and string-to-date parsing. All dates are integer day numbers and timestamps.
- `View.IsOverdue`: does not model the time-zone offset between `new Date("YYYY-MM-DD")` (UTC midnight) and local midnight of today (`src/App.tsx:62-65`). Both are taken to be the same day number. West of UTC, the UTC midnight of a day falls before the local midnight of that day, so the code flags a task due today as overdue. `View.DueTodayNotOverdue` therefore holds only for the day-number model, not for the code in such a time zone.
- `View.SortTodos`: the model sorts with insertion sort, while a JavaScript engine may use another stable algorithm. Both give the same result because the comparator is a total preorder. That uniqueness of the stable sort is not itself proved here.
