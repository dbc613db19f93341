/** The view deriver of `src/App.tsx`: priority ranks, the overdue flag,
    the filter, the counts and the three-mode sort of the displayed list. */
module View {
  import opened Types
  import Seqs
  import Sorting

  // ---- priority ----

  /** `PRIORITY_ORDER`: high ranks 0, medium 1, low 2. */
  function PriorityOrder(p: Priority): (r: nat)
    ensures r <= 2
    ensures p == High <==> r == 0
    ensures p == Low <==> r == 2
  {
    match p
    case High => 0
    case Medium => 1
    case Low => 2
  }

  /** The rank tells the priorities apart, so it orders them totally. */
  lemma PriorityOrderInjective(p: Priority, q: Priority)
    ensures PriorityOrder(p) == PriorityOrder(q) <==> p == q
  {
  }

  // ---- overdue ----

  /** `isOverdue`: a task is overdue when it has a due date, is not
      completed, and its due day lies before `today`. Days are compared
      whole; the time of day plays no part. */
  function IsOverdue(dueDate: Option<int>, completed: bool, today: int): (r: bool)
    ensures r ==> dueDate.Some? && !completed
    ensures dueDate.Some? && !completed ==> (r <==> dueDate.value < today)
  {
    if dueDate.None? || completed then false
    else dueDate.value < today
  }

  /** A task due today is not overdue. */
  lemma DueTodayNotOverdue(day: int, completed: bool)
    ensures !IsOverdue(Some(day), completed, day)
  {
  }

  /** Once overdue, a task stays overdue on every later day. */
  lemma OverdueStaysOverdue(dueDate: Option<int>, completed: bool, today: int, later: int)
    requires IsOverdue(dueDate, completed, today) && today <= later
    ensures IsOverdue(dueDate, completed, later)
  {
  }

  // ---- filter ----

  /** The callback of `filteredTodos`. */
  function Matches(filter: FilterType, t: Todo): (r: bool)
    ensures filter == All ==> r
    ensures filter != All ==> (r <==> t.completed == (filter == Completed))
  {
    match filter
    case Active => !t.completed
    case Completed => t.completed
    case All => true
  }

  function Shows(filter: FilterType): Todo -> bool {
    (t: Todo) => Matches(filter, t)
  }

  /** `filteredTodos`: the tasks the selected filter shows, in list order. */
  function FilterTodos(todos: seq<Todo>, filter: FilterType): (r: seq<Todo>)
    ensures forall i :: 0 <= i < |r| ==> Matches(filter, r[i])
    ensures forall i :: 0 <= i < |todos| ==> (todos[i] in r <==> Matches(filter, todos[i]))
    ensures multiset(r) <= multiset(todos)
  {
    Seqs.FilterSubMultiset(Shows(filter), todos);
    Seqs.Filter(Shows(filter), todos)
  }

  /** The `all` filter returns the list unchanged. */
  lemma FilterAllIsIdentity(todos: seq<Todo>)
    ensures FilterTodos(todos, All) == todos
  {
    Seqs.FilterKeepsAll(Shows(All), todos);
  }

  /** A filter keeps the relative order of the tasks it shows. */
  lemma FilterKeepsOrder(a: seq<Todo>, b: seq<Todo>, filter: FilterType)
    ensures FilterTodos(a + b, filter) == FilterTodos(a, filter) + FilterTodos(b, filter)
  {
    Seqs.FilterAppend(Shows(filter), a, b);
  }

  /** `active` and `completed` split the list between them. */
  lemma ActiveCompletedPartition(todos: seq<Todo>)
    ensures |FilterTodos(todos, Active)| + |FilterTodos(todos, Completed)| == |todos|
  {
    Seqs.FilterComplement(Shows(Completed), Shows(Active), todos);
  }

  // ---- counts ----

  /** The callback of `completedCount`. */
  const IsDone: Todo -> bool := (t: Todo) => t.completed

  /** `completedCount`: the number of completed tasks. */
  function CompletedCount(todos: seq<Todo>): (n: nat)
    ensures n <= |todos|
  {
    |Seqs.Filter(IsDone, todos)|
  }

  /** `activeCount`: the list length minus the completed count, which is
      the number of tasks the `active` filter shows. */
  function ActiveCount(todos: seq<Todo>): (n: nat)
    ensures n == |FilterTodos(todos, Active)|
  {
    Seqs.FilterPointwise(IsDone, Shows(Completed), todos);
    Seqs.FilterComplement(Shows(Completed), Shows(Active), todos);
    |todos| - CompletedCount(todos)
  }

  /** The counts are the sizes of the `completed` and `active` views and add
      up to the length of the list. */
  lemma CountsMatchFilters(todos: seq<Todo>)
    ensures CompletedCount(todos) == |FilterTodos(todos, Completed)|
    ensures ActiveCount(todos) == |FilterTodos(todos, Active)|
    ensures CompletedCount(todos) + ActiveCount(todos) == |todos|
  {
    Seqs.FilterPointwise(IsDone, Shows(Completed), todos);
    ActiveCompletedPartition(todos);
  }

  // ---- comparator ----

  /** Milliseconds between two consecutive midnights: the unit of
      `Date.getTime` differences between two due days. */
  const MsPerDay: int := 86_400_000

  /** The comparator of `sortTodos` for the selected `sortBy`: negative
      when `a` goes first, positive when `b` goes first, zero for a tie. */
  function Compare(sortBy: SortType, a: Todo, b: Todo): (r: int)
    ensures a.completed != b.completed ==> r != 0 && (r < 0 <==> !a.completed)
    ensures a == b ==> r == 0
    ensures a.completed == b.completed && sortBy == ByCreated ==> (r <= 0 <==> a.createdAt >= b.createdAt)
  {
    if a.completed != b.completed then (if a.completed then 1 else -1)
    else match sortBy
      case ByPriority =>
        if PriorityOrder(a.priority) != PriorityOrder(b.priority) then
          PriorityOrder(a.priority) - PriorityOrder(b.priority)
        else if a.dueDate.Some? && b.dueDate.Some? then
          (a.dueDate.value - b.dueDate.value) * MsPerDay
        else if a.dueDate.Some? then -1
        else if b.dueDate.Some? then 1
        else 0
      case ByDueDate =>
        if a.dueDate.Some? && b.dueDate.Some? then
          (a.dueDate.value - b.dueDate.value) * MsPerDay
        else if a.dueDate.Some? then -1
        else if b.dueDate.Some? then 1
        else if PriorityOrder(a.priority) != PriorityOrder(b.priority) then
          PriorityOrder(a.priority) - PriorityOrder(b.priority)
        else 0
      case ByCreated =>
        b.createdAt - a.createdAt
  }

  /** Due dates in ascending order, a dated task before an undated one. */
  predicate DueNoLater(x: Option<int>, y: Option<int>) {
    match (x, y)
    case (Some(d), Some(e)) => d <= e
    case (Some(_), None) => true
    case (None, Some(_)) => false
    case (None, None) => true
  }

  /** The order the list is meant to show, stated field by field: open tasks
      before completed ones, then per `sortBy`
      - priority: rank ascending, equal ranks by due date;
      - due date: due date ascending; two undated tasks by rank;
      - created: newest first. */
  predicate InOrder(sortBy: SortType, a: Todo, b: Todo) {
    if a.completed != b.completed then !a.completed
    else match sortBy
      case ByPriority =>
        || PriorityOrder(a.priority) < PriorityOrder(b.priority)
        || (PriorityOrder(a.priority) == PriorityOrder(b.priority) && DueNoLater(a.dueDate, b.dueDate))
      case ByDueDate =>
        if a.dueDate.None? && b.dueDate.None? then PriorityOrder(a.priority) <= PriorityOrder(b.priority)
        else DueNoLater(a.dueDate, b.dueDate)
      case ByCreated =>
        a.createdAt >= b.createdAt
  }

  /** The comparator lets `a` go first exactly when `InOrder` says so. */
  lemma CompareMeansInOrder(sortBy: SortType, a: Todo, b: Todo)
    ensures Compare(sortBy, a, b) <= 0 <==> InOrder(sortBy, a, b)
  {
  }

  /** Every task ties with itself. */
  lemma CompareReflexive(sortBy: SortType, a: Todo)
    ensures Compare(sortBy, a, a) == 0
  {
  }

  /** Swapping the arguments negates the comparator. */
  lemma CompareAntisymmetric(sortBy: SortType, a: Todo, b: Todo)
    ensures Compare(sortBy, a, b) == -Compare(sortBy, b, a)
  {
  }

  /** The comparator is transitive. */
  lemma CompareTransitive(sortBy: SortType, a: Todo, b: Todo, c: Todo)
    requires Compare(sortBy, a, b) <= 0 && Compare(sortBy, b, c) <= 0
    ensures Compare(sortBy, a, c) <= 0
  {
    CompareMeansInOrder(sortBy, a, b);
    CompareMeansInOrder(sortBy, b, c);
    CompareMeansInOrder(sortBy, a, c);
  }

  /** The comparator as the function value handed to the sort. */
  function CompareBy(sortBy: SortType): (Todo, Todo) -> int {
    (a: Todo, b: Todo) => Compare(sortBy, a, b)
  }

  /** For every `sortBy` the comparator is a total preorder, so a stable
      sort by it is well defined. */
  lemma CompareIsTotalPreorder(sortBy: SortType)
    ensures Sorting.TotalPreorder(CompareBy(sortBy))
  {
    var cmp := CompareBy(sortBy);
    forall a, b ensures cmp(a, b) == -cmp(b, a) {
      CompareAntisymmetric(sortBy, a, b);
    }
    forall a, b, c | cmp(a, b) <= 0 && cmp(b, c) <= 0 ensures cmp(a, c) <= 0 {
      CompareTransitive(sortBy, a, b, c);
    }
  }

  /** In a list sorted by the comparator every open task precedes every
      completed task, and any two tasks stand in the order `InOrder`
      describes. */
  lemma SortedMeansInOrder(sortBy: SortType, r: seq<Todo>)
    requires Sorting.Sorted(CompareBy(sortBy), r)
    ensures forall i, j :: 0 <= i < j < |r| ==> InOrder(sortBy, r[i], r[j])
    ensures forall i, j :: 0 <= i < j < |r| ==> !r[i].completed || r[j].completed
  {
    forall i, j | 0 <= i < j < |r| ensures InOrder(sortBy, r[i], r[j]) {
      assert CompareBy(sortBy)(r[i], r[j]) <= 0;
      CompareMeansInOrder(sortBy, r[i], r[j]);
    }
  }

  /** Sorting by priority puts a completed high-rank-number task after the
      open ones whatever its rank: A (high, open), B (low, done),
      C (medium, open) sort as A, C, B. */
  lemma ExampleCompletedLast()
    ensures var a := Todo("a", "A", false, None, High, 1);
            var b := Todo("b", "B", true, None, Low, 2);
            var c := Todo("c", "C", false, None, Medium, 3);
            Sorting.SortSpec(CompareBy(ByPriority), [a, b, c]) == [a, c, b]
  {
    var a := Todo("a", "A", false, None, High, 1);
    var b := Todo("b", "B", true, None, Low, 2);
    var c := Todo("c", "C", false, None, Medium, 3);
    var cmp := CompareBy(ByPriority);
    assert [a, b, c][..2] == [a, b] && [a, b][..1] == [a] && [a][..0] == [];
    assert Sorting.SortSpec(cmp, [a, b]) == [a, b];
    assert cmp(b, c) > 0 && cmp(a, c) <= 0;
    assert Sorting.Insert(cmp, [a], c) == [a, c];
    assert Sorting.Insert(cmp, [a, b], c) == Sorting.Insert(cmp, [a], c) + [b];
  }

  /** Sorting by due date: X (day 10), Y (no date), Z (day 5), all open,
      sort as Z, X, Y. */
  lemma ExampleDueDateOrder()
    ensures var x := Todo("x", "X", false, Some(10), Medium, 1);
            var y := Todo("y", "Y", false, None, Medium, 2);
            var z := Todo("z", "Z", false, Some(5), Medium, 3);
            Sorting.SortSpec(CompareBy(ByDueDate), [x, y, z]) == [z, x, y]
  {
    var x := Todo("x", "X", false, Some(10), Medium, 1);
    var y := Todo("y", "Y", false, None, Medium, 2);
    var z := Todo("z", "Z", false, Some(5), Medium, 3);
    var cmp := CompareBy(ByDueDate);
    assert [x, y, z][..2] == [x, y] && [x, y][..1] == [x] && [x][..0] == [];
    assert Sorting.SortSpec(cmp, [x, y]) == [x, y];
    assert cmp(y, z) > 0 && cmp(x, z) > 0;
    assert Sorting.Insert(cmp, [], z) == [z];
    assert Sorting.Insert(cmp, [x], z) == Sorting.Insert(cmp, [], z) + [x];
    assert Sorting.Insert(cmp, [x, y], z) == Sorting.Insert(cmp, [x], z) + [y];
  }

  /** Sorting by due date, two open tasks due on the same day tie even
      when their priorities differ: low before high stays as it is. */
  lemma ExampleSameDayKeepsOrder()
    ensures var l := Todo("l", "L", false, Some(7), Low, 1);
            var h := Todo("h", "H", false, Some(7), High, 2);
            Sorting.SortSpec(CompareBy(ByDueDate), [l, h]) == [l, h]
  {
    var l := Todo("l", "L", false, Some(7), Low, 1);
    var h := Todo("h", "H", false, Some(7), High, 2);
    assert [l, h][..1] == [l] && [l][..0] == [];
  }

  /** `sortTodos`: sort a fresh copy of `todoArray` in place with the
      comparator; the input is left untouched. The result is the stable
      sort of the input: a permutation of it, ordered as `InOrder` says,
      with tied tasks in their input order. */
  method SortTodos(sortBy: SortType, todoArray: seq<Todo>) returns (r: seq<Todo>)
    ensures r == Sorting.SortSpec(CompareBy(sortBy), todoArray)
    ensures multiset(r) == multiset(todoArray)
    ensures forall i, j :: 0 <= i < j < |r| ==> !r[i].completed || r[j].completed
    ensures forall i, j :: 0 <= i < j < |r| ==> InOrder(sortBy, r[i], r[j])
    ensures forall c :: Seqs.Filter(Sorting.TiedWith(CompareBy(sortBy), c), r)
                     == Seqs.Filter(Sorting.TiedWith(CompareBy(sortBy), c), todoArray)
  {
    var a := new Todo[|todoArray|](k requires 0 <= k < |todoArray| => todoArray[k]);
    assert a[..] == todoArray;
    Sorting.InsertionSort(CompareBy(sortBy), a);
    r := a[..];
    CompareIsTotalPreorder(sortBy);
    Sorting.SortPermutation(CompareBy(sortBy), todoArray);
    Sorting.SortSorted(CompareBy(sortBy), todoArray);
    SortedMeansInOrder(sortBy, r);
    forall c ensures Seqs.Filter(Sorting.TiedWith(CompareBy(sortBy), c), r)
                  == Seqs.Filter(Sorting.TiedWith(CompareBy(sortBy), c), todoArray) {
      Sorting.SortStable(CompareBy(sortBy), todoArray, c);
    }
  }

  /** `sortedTodos`: the filtered tasks, sorted. */
  method DeriveView(todos: seq<Todo>, filter: FilterType, sortBy: SortType) returns (r: seq<Todo>)
    ensures r == Sorting.SortSpec(CompareBy(sortBy), FilterTodos(todos, filter))
    ensures multiset(r) == multiset(FilterTodos(todos, filter))
    ensures forall i :: 0 <= i < |r| ==> Matches(filter, r[i])
    ensures forall i, j :: 0 <= i < j < |r| ==> InOrder(sortBy, r[i], r[j])
  {
    var shown := FilterTodos(todos, filter);
    r := SortTodos(sortBy, shown);
    forall i | 0 <= i < |r| ensures Matches(filter, r[i]) {
      assert r[i] in multiset(shown);
    }
  }
}
