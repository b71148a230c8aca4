/**
  The task record and its priority (Todo.swift).
  A `UUID` is an opaque natural number and a `Date` an integer timestamp.
 */
module TodoModel {
  import opened Wrappers

  type Id = nat
  type Time = int

  /** A raw-valued enum: each case is stored and compared as its raw string. */
  datatype Priority = High | Medium | Low

  function RawValue(p: Priority): (raw: string)
    ensures raw == "High" || raw == "Medium" || raw == "Low"
  {
    match p
    case High => "High"
    case Medium => "Medium"
    case Low => "Low"
  }

  /** `Priority(rawValue:)`, the decoding direction: an unknown string gives no case. */
  function PriorityFromRaw(raw: string): (p: Option<Priority>)
    ensures p.Some? <==> raw in {"High", "Medium", "Low"}
  {
    if raw == "High" then Some(High)
    else if raw == "Medium" then Some(Medium)
    else if raw == "Low" then Some(Low)
    else None
  }

  /** The three raw values are pairwise distinct, so each case is recovered from its raw value. */
  lemma RawValueRoundTrip(p: Priority)
    ensures PriorityFromRaw(RawValue(p)) == Some(p)
  {
  }

  lemma RawValueInjective(p: Priority, q: Priority)
    ensures RawValue(p) == RawValue(q) <==> p == q
  {
  }

  lemma PriorityFromRawInverse(raw: string, p: Priority)
    ensures PriorityFromRaw(raw) == Some(p) <==> RawValue(p) == raw
  {
  }

  datatype Todo = Todo(
    id: Id,
    title: string,
    isCompleted: bool,
    dateCreated: Time,
    dueDate: Option<Time>,
    priority: Priority,
    category: string)

  /**
    `Todo.init`: `id` stands for the fresh `UUID()` and `dateCreated` for the
    clock's `Date()`, both supplied by the caller; the other arguments carry
    the initializer's defaults.
   */
  function NewTodo(id: Id, title: string, dateCreated: Time,
                   isCompleted: bool := false,
                   dueDate: Option<Time> := None,
                   priority: Priority := Medium,
                   category: string := "Default"): (t: Todo)
    ensures t.id == id && t.title == title && t.dateCreated == dateCreated
    ensures t.isCompleted == isCompleted && t.dueDate == dueDate
    ensures t.priority == priority && t.category == category
  {
    Todo(id, title, isCompleted, dateCreated, dueDate, priority, category)
  }

  /** With every optional argument omitted, a new task is open, undated, of medium priority, in "Default". */
  lemma NewTodoDefaults(id: Id, title: string, now: Time)
    ensures var t := NewTodo(id, title, now);
      !t.isCompleted && t.dueDate == None && t.priority == Medium && t.category == "Default"
  {
  }
}
