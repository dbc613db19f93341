/** The task list store of `src/App.tsx`: adding, toggling and deleting
    tasks, each of which replaces the whole list with a new one. */
module Store {
  import opened Types
  import opened Text
  import Seqs

  /** Some task in `todos` carries `id`. */
  predicate HasId(todos: seq<Todo>, id: string) {
    exists i :: 0 <= i < |todos| && todos[i].id == id
  }

  /** No two tasks share an id. */
  predicate UniqueIds(todos: seq<Todo>) {
    forall i, j :: 0 <= i < j < |todos| ==> todos[i].id != todos[j].id
  }

  /** A task text as the add operation stores it: trimmed and not blank. */
  predicate StoredText(s: string) {
    s != [] && Trim(s) == s
  }

  /** Every task text in `todos` is one the add operation could store. */
  predicate AllStoredTexts(todos: seq<Todo>) {
    forall i :: 0 <= i < |todos| ==> StoredText(todos[i].text)
  }

  /** `addTodo`: a blank input changes nothing; otherwise a new, incomplete
      task with the trimmed text, the chosen due date (`None` for an empty
      date field) and priority, the given id and creation instant is
      appended. */
  function AddTodo(todos: seq<Todo>, input: string, dueInput: Option<int>,
                   priority: Priority, id: string, now: int): (r: seq<Todo>)
    ensures IsBlank(input) ==> r == todos
    ensures !IsBlank(input) ==>
      && |r| == |todos| + 1
      && r[..|todos|] == todos
      && r[|todos|].id == id
      && r[|todos|].text == Trim(input)
      && !r[|todos|].completed
      && r[|todos|].dueDate == dueInput
      && r[|todos|].priority == priority
      && r[|todos|].createdAt == now
  {
    if IsBlank(input) then todos
    else todos + [Todo(id, Trim(input), false, dueInput, priority, now)]
  }

  /** `toggleTodo`: the same tasks in the same order, with `completed`
      flipped exactly on the tasks whose id is `id` and nothing else
      changed. */
  function ToggleTodo(todos: seq<Todo>, id: string): (r: seq<Todo>)
    ensures |r| == |todos|
    ensures forall i :: 0 <= i < |r| ==>
      r[i].completed == (todos[i].completed != (todos[i].id == id))
    ensures forall i :: 0 <= i < |r| ==>
      r[i] == todos[i].(completed := r[i].completed)
  {
    seq(|todos|, i requires 0 <= i < |todos| =>
      if todos[i].id == id then todos[i].(completed := !todos[i].completed) else todos[i])
  }

  /** The filter callback of `deleteTodo`. */
  function OtherThan(id: string): Todo -> bool {
    (t: Todo) => t.id != id
  }

  /** `deleteTodo`: the tasks whose id differs from `id`, in their order. */
  function DeleteTodo(todos: seq<Todo>, id: string): (r: seq<Todo>)
    ensures forall i :: 0 <= i < |r| ==> r[i].id != id
    ensures forall i :: 0 <= i < |todos| ==> (todos[i] in r <==> todos[i].id != id)
    ensures multiset(r) <= multiset(todos)
  {
    Seqs.FilterSubMultiset(OtherThan(id), todos);
    Seqs.Filter(OtherThan(id), todos)
  }

  // ---- add ----

  /** An input made only of white space (the empty input included) adds
      nothing. */
  lemma AddWhitespaceOnlyIsNoOp(todos: seq<Todo>, input: string, dueInput: Option<int>,
                                priority: Priority, id: string, now: int)
    requires forall k :: 0 <= k < |input| ==> IsWhitespace(input[k])
    ensures AddTodo(todos, input, dueInput, priority, id, now) == todos
  {
    BlankIffAllWhitespace(input);
  }

  /** Adding keeps every stored text trimmed and non-blank. */
  lemma AddKeepsStoredTexts(todos: seq<Todo>, input: string, dueInput: Option<int>,
                            priority: Priority, id: string, now: int)
    requires AllStoredTexts(todos)
    ensures AllStoredTexts(AddTodo(todos, input, dueInput, priority, id, now))
  {
    TrimIdempotent(input);
  }

  /** Adding with an id not yet in the list keeps ids unique. */
  lemma AddKeepsUniqueIds(todos: seq<Todo>, input: string, dueInput: Option<int>,
                          priority: Priority, id: string, now: int)
    requires UniqueIds(todos) && !HasId(todos, id)
    ensures UniqueIds(AddTodo(todos, input, dueInput, priority, id, now))
  {
    var r := AddTodo(todos, input, dueInput, priority, id, now);
    if !IsBlank(input) {
      forall i, j | 0 <= i < j < |r| ensures r[i].id != r[j].id {
        if j == |todos| {
          assert r[i] == todos[i];
        } else {
          assert r[i] == todos[i] && r[j] == todos[j];
        }
      }
    }
  }

  // ---- toggle ----

  /** Toggling the same id twice restores the list. */
  lemma ToggleTwice(todos: seq<Todo>, id: string)
    ensures ToggleTodo(ToggleTodo(todos, id), id) == todos
  {
    var r := ToggleTodo(ToggleTodo(todos, id), id);
    assert forall i :: 0 <= i < |r| ==> r[i] == todos[i];
  }

  /** Toggling an id no task carries leaves the list as it is. */
  lemma ToggleUnknown(todos: seq<Todo>, id: string)
    requires !HasId(todos, id)
    ensures ToggleTodo(todos, id) == todos
  {
    var r := ToggleTodo(todos, id);
    assert forall i :: 0 <= i < |r| ==> r[i] == todos[i];
  }

  /** Toggling keeps every id, hence unique ids, and every text. */
  lemma ToggleKeepsInvariants(todos: seq<Todo>, id: string)
    ensures UniqueIds(todos) ==> UniqueIds(ToggleTodo(todos, id))
    ensures AllStoredTexts(todos) ==> AllStoredTexts(ToggleTodo(todos, id))
  {
    var r := ToggleTodo(todos, id);
    assert forall i :: 0 <= i < |r| ==> r[i].id == todos[i].id && r[i].text == todos[i].text;
  }

  // ---- delete ----

  /** Deleting distributes over concatenation: the survivors keep their
      relative order. */
  lemma DeleteAppend(a: seq<Todo>, b: seq<Todo>, id: string)
    ensures DeleteTodo(a + b, id) == DeleteTodo(a, id) + DeleteTodo(b, id)
  {
    Seqs.FilterAppend(OtherThan(id), a, b);
  }

  /** Deleting an id no task carries leaves the list as it is. */
  lemma DeleteUnknown(todos: seq<Todo>, id: string)
    requires !HasId(todos, id)
    ensures DeleteTodo(todos, id) == todos
  {
    Seqs.FilterKeepsAll(OtherThan(id), todos);
  }

  /** A second delete of the same id is a no-op. */
  lemma DeleteTwice(todos: seq<Todo>, id: string)
    ensures DeleteTodo(DeleteTodo(todos, id), id) == DeleteTodo(todos, id)
  {
    Seqs.FilterIdempotent(OtherThan(id), todos);
  }

  /** Deleting keeps every stored text trimmed and non-blank. */
  lemma DeleteKeepsStoredTexts(todos: seq<Todo>, id: string)
    requires AllStoredTexts(todos)
    ensures AllStoredTexts(DeleteTodo(todos, id))
  {
    Seqs.FilterSubMultiset(OtherThan(id), todos);
  }

  /** Deleting keeps ids unique. */
  lemma {:induction false} DeleteKeepsUniqueIds(todos: seq<Todo>, id: string)
    requires UniqueIds(todos)
    ensures UniqueIds(DeleteTodo(todos, id))
  {
    if todos != [] {
      DeleteKeepsUniqueIds(todos[1..], id);
      Seqs.FilterSubMultiset(OtherThan(id), todos[1..]);
    }
  }

  /** With unique ids, deleting an id that is present removes exactly one
      task. */
  lemma {:induction false} DeletePresentRemovesOne(todos: seq<Todo>, id: string)
    requires UniqueIds(todos) && HasId(todos, id)
    ensures |DeleteTodo(todos, id)| == |todos| - 1
  {
    assert todos == [todos[0]] + todos[1..];
    DeleteAppend([todos[0]], todos[1..], id);
    if todos[0].id == id {
      assert forall k :: 0 <= k < |todos| - 1 ==> todos[1..][k].id != id by {
        forall k | 0 <= k < |todos| - 1 ensures todos[1..][k].id != id {
          assert todos[1..][k] == todos[k + 1];
        }
      }
      DeleteUnknown(todos[1..], id);
    } else {
      assert HasId(todos[1..], id) by {
        var k :| 0 <= k < |todos| && todos[k].id == id;
        assert todos[1..][k - 1].id == id;
      }
      DeletePresentRemovesOne(todos[1..], id);
    }
  }

  /** The store object: the `todos` state with its three mutations. The
      state read from storage at start-up is passed to the constructor. */
  class TodoStore {
    var todos: seq<Todo>

    /** Every stored text is trimmed and non-blank. The loaded list need
        not satisfy this; the three mutations keep it once it holds. */
    ghost predicate TextsStored()
      reads this
    {
      AllStoredTexts(todos)
    }

    constructor (saved: seq<Todo>)
      ensures todos == saved
    {
      todos := saved;
    }

    /** `addTodo`, with the form fields, the id and the clock passed in. */
    method Add(input: string, dueInput: Option<int>, priority: Priority, id: string, now: int)
      modifies this
      ensures todos == AddTodo(old(todos), input, dueInput, priority, id, now)
      ensures old(TextsStored()) ==> TextsStored()
      ensures old(UniqueIds(todos)) && !old(HasId(todos, id)) ==> UniqueIds(todos)
    {
      if TextsStored() {
        AddKeepsStoredTexts(todos, input, dueInput, priority, id, now);
      }
      if UniqueIds(todos) && !HasId(todos, id) {
        AddKeepsUniqueIds(todos, input, dueInput, priority, id, now);
      }
      todos := AddTodo(todos, input, dueInput, priority, id, now);
    }

    /** `toggleTodo`. */
    method Toggle(id: string)
      modifies this
      ensures todos == ToggleTodo(old(todos), id)
      ensures old(TextsStored()) ==> TextsStored()
      ensures old(UniqueIds(todos)) ==> UniqueIds(todos)
    {
      ToggleKeepsInvariants(todos, id);
      todos := ToggleTodo(todos, id);
    }

    /** `deleteTodo`. */
    method Delete(id: string)
      modifies this
      ensures todos == DeleteTodo(old(todos), id)
      ensures old(TextsStored()) ==> TextsStored()
      ensures old(UniqueIds(todos)) ==> UniqueIds(todos)
    {
      if TextsStored() {
        DeleteKeepsStoredTexts(todos, id);
      }
      if UniqueIds(todos) {
        DeleteKeepsUniqueIds(todos, id);
      }
      todos := DeleteTodo(todos, id);
    }
  }
}
