/** The data model of the to-do list: a task record and the two selectors
    that drive the view. Calendar dates are day numbers and the creation
    instant is a millisecond timestamp. */
module Types {

  /** An optional value; `None` stands for the `null` of an absent field. */
  datatype Option<+T> = None | Some(value: T)

  /** The three priority levels a task can carry. */
  datatype Priority = High | Medium | Low

  /** One task. Only `dueDate` may be absent; every other field is always set. */
  datatype Todo = Todo(
    id: string,
    text: string,
    completed: bool,
    dueDate: Option<int>,   // day number of the due date, or absent
    priority: Priority,
    createdAt: int          // creation instant in milliseconds
  )

  /** Which tasks the list shows. */
  datatype FilterType = All | Active | Completed

  /** Which rule orders the tasks within each completion group. */
  datatype SortType = ByPriority | ByDueDate | ByCreated

  /** A priority is exactly one of high, medium and low. */
  lemma PriorityCases(p: Priority)
    ensures p == High || p == Medium || p == Low
    ensures !(p == High && p == Medium) && !(p == Medium && p == Low) && !(p == High && p == Low)
  {
  }

  /** Only the due date of a task may be absent; the record is determined
      by its six fields. */
  lemma TodoFields(t: Todo)
    ensures t.dueDate == None || t.dueDate == Some(t.dueDate.value)
    ensures t == Todo(t.id, t.text, t.completed, t.dueDate, t.priority, t.createdAt)
  {
  }

  /** A filter selector is exactly one of all, active and completed. */
  lemma FilterTypeCases(f: FilterType)
    ensures f == All || f == Active || f == Completed
  {
  }

  /** A sort selector is exactly one of priority, due date and created. */
  lemma SortTypeCases(s: SortType)
    ensures s == ByPriority || s == ByDueDate || s == ByCreated
  {
  }
}
