/**
  The collection `todos` of TodoViewModel.swift as a value: lookup by id and
  the new collection each mutator produces. The class in view_model.dfy
  stores such a sequence and its methods are proved against these functions.
 */
module TodoList {
  import opened Wrappers
  import opened TodoModel

  predicate HasId(ts: seq<Todo>, id: Id)
  {
    exists i :: 0 <= i < |ts| && ts[i].id == id
  }

  /** No two tasks of the collection share an id. */
  predicate UniqueIds(ts: seq<Todo>)
  {
    forall i, j :: 0 <= i < j < |ts| ==> ts[i].id != ts[j].id
  }

  /** `firstIndex(where: { $0.id == id })`. */
  function FirstIndex(ts: seq<Todo>, id: Id): (r: Option<nat>)
    ensures r.None? <==> !HasId(ts, id)
    ensures r.Some? ==> r.value < |ts| && ts[r.value].id == id
    ensures r.Some? ==> forall k :: 0 <= k < r.value ==> ts[k].id != id
  {
    if ts == [] then None
    else if ts[0].id == id then Some(0)
    else
      match FirstIndex(ts[1..], id)
      case None => None
      case Some(i) => Some(i + 1)
  }

  /** Two collections with the same ids at the same positions have the same first match. */
  lemma FirstIndexDependsOnlyOnIds(a: seq<Todo>, b: seq<Todo>, id: Id)
    requires |a| == |b|
    requires forall k :: 0 <= k < |a| ==> a[k].id == b[k].id
    ensures FirstIndex(a, id) == FirstIndex(b, id)
  {
  }

  /** `toggleTodo`: flip `isCompleted` of the first task with this id, if any. */
  function Toggled(ts: seq<Todo>, id: Id): (r: seq<Todo>)
    ensures |r| == |ts| && forall k :: 0 <= k < |ts| ==> r[k].id == ts[k].id
  {
    match FirstIndex(ts, id)
    case None => ts
    case Some(i) => ts[i := ts[i].(isCompleted := !ts[i].isCompleted)]
  }

  /** `updateTodo`: overwrite four fields of the first task with this id, if any. */
  function Updated(ts: seq<Todo>, id: Id, title: string, dueDate: Option<Time>,
                   priority: Priority, category: string): (r: seq<Todo>)
    ensures |r| == |ts| && forall k :: 0 <= k < |ts| ==> r[k].id == ts[k].id
  {
    match FirstIndex(ts, id)
    case None => ts
    case Some(i) => ts[i := ts[i].(title := title, dueDate := dueDate, priority := priority, category := category)]
  }

  /** `removeAll(where: { $0.id == id })`: the other tasks, in their original order. */
  function Removed(ts: seq<Todo>, id: Id): (r: seq<Todo>)
    ensures |r| <= |ts|
    ensures forall t :: t in r ==> t in ts && t.id != id
  {
    if ts == [] then []
    else if ts[0].id == id then Removed(ts[1..], id)
    else [ts[0]] + Removed(ts[1..], id)
  }

  // ---- toggle ----

  /** Exactly the first task with the id changes, and only in its `isCompleted`. */
  lemma ToggledSpec(ts: seq<Todo>, id: Id)
    ensures |Toggled(ts, id)| == |ts|
    ensures !HasId(ts, id) ==> Toggled(ts, id) == ts
    ensures HasId(ts, id) ==>
      var i := FirstIndex(ts, id).value;
      && Toggled(ts, id)[i] == ts[i].(isCompleted := !ts[i].isCompleted)
      && forall k :: 0 <= k < |ts| && k != i ==> Toggled(ts, id)[k] == ts[k]
  {
  }

  /** Toggling the same id twice restores the collection. */
  lemma ToggleTwice(ts: seq<Todo>, id: Id)
    ensures Toggled(Toggled(ts, id), id) == ts
  {
  }

  // ---- update ----

  /** Exactly the first task with the id changes; its id, completion and creation date stay. */
  lemma UpdatedSpec(ts: seq<Todo>, id: Id, title: string, dueDate: Option<Time>,
                    priority: Priority, category: string)
    ensures var r := Updated(ts, id, title, dueDate, priority, category);
      && |r| == |ts|
      && (!HasId(ts, id) ==> r == ts)
      && (HasId(ts, id) ==>
            var i := FirstIndex(ts, id).value;
            && r[i].title == title && r[i].dueDate == dueDate
            && r[i].priority == priority && r[i].category == category
            && r[i].id == ts[i].id && r[i].isCompleted == ts[i].isCompleted
            && r[i].dateCreated == ts[i].dateCreated
            && forall k :: 0 <= k < |ts| && k != i ==> r[k] == ts[k])
  {
  }

  /** Updating twice with the same values is the same as updating once. */
  lemma UpdateIdempotent(ts: seq<Todo>, id: Id, title: string, dueDate: Option<Time>,
                         priority: Priority, category: string)
    ensures var once := Updated(ts, id, title, dueDate, priority, category);
      Updated(once, id, title, dueDate, priority, category) == once
  {
  }

  // ---- remove ----

  /** After removal no task has the id; every other task is kept with its multiplicity. */
  lemma {:induction false} RemovedSpec(ts: seq<Todo>, id: Id)
    ensures !HasId(Removed(ts, id), id)
    ensures forall t: Todo :: multiset(Removed(ts, id))[t] == if t.id == id then 0 else multiset(ts)[t]
  {
    if ts != [] {
      RemovedSpec(ts[1..], id);
      assert ts == [ts[0]] + ts[1..];
    }
  }

  /** Removing an id that is absent leaves the collection unchanged. */
  lemma {:induction false} RemoveAbsent(ts: seq<Todo>, id: Id)
    requires !HasId(ts, id)
    ensures Removed(ts, id) == ts
  {
    if ts != [] {
      assert !HasId(ts[1..], id) by {
        forall i | 0 <= i < |ts[1..]| ensures ts[1..][i].id != id {
          assert ts[1..][i] == ts[i + 1];
        }
      }
      RemoveAbsent(ts[1..], id);
    }
  }

  /** Removal distributes over concatenation. */
  lemma {:induction false} RemovedAppend(a: seq<Todo>, b: seq<Todo>, id: Id)
    ensures Removed(a + b, id) == Removed(a, id) + Removed(b, id)
  {
    if a == [] {
      assert a + b == b;
    } else {
      assert (a + b)[0] == a[0] && (a + b)[1..] == a[1..] + b;
      RemovedAppend(a[1..], b, id);
    }
  }

  /**
    With unique ids, removal deletes exactly the one matching task and keeps
    the others in their original order.
   */
  lemma RemoveUnique(ts: seq<Todo>, id: Id)
    requires UniqueIds(ts) && HasId(ts, id)
    ensures var i := FirstIndex(ts, id).value;
      Removed(ts, id) == ts[..i] + ts[i + 1..]
  {
    var i := FirstIndex(ts, id).value;
    var before, after := ts[..i], ts[i + 1..];
    NoIdBeforeFirst(ts, id);
    NoIdAfterUnique(ts, i);
    RemoveAbsent(before, id);
    RemoveAbsent(after, id);
    assert Removed([ts[i]] + after, id) == after by {
      assert ([ts[i]] + after)[1..] == after;
    }
    assert ts == before + ([ts[i]] + after);
    RemovedAppend(before, [ts[i]] + after, id);
  }

  lemma NoIdBeforeFirst(ts: seq<Todo>, id: Id)
    requires HasId(ts, id)
    ensures !HasId(ts[..FirstIndex(ts, id).value], id)
  {
  }

  lemma NoIdAfterUnique(ts: seq<Todo>, i: nat)
    requires UniqueIds(ts) && i < |ts|
    ensures !HasId(ts[i + 1..], ts[i].id)
  {
  }

  /** Removal keeps ids unique. */
  lemma {:induction false} RemovePreservesUnique(ts: seq<Todo>, id: Id)
    requires UniqueIds(ts)
    ensures UniqueIds(Removed(ts, id))
  {
    if HasId(ts, id) {
      RemoveUnique(ts, id);
    } else {
      RemoveAbsent(ts, id);
    }
  }

  /** After removal, toggling or updating that id changes nothing. */
  lemma RemovalIsFinal(ts: seq<Todo>, id: Id, title: string, dueDate: Option<Time>,
                       priority: Priority, category: string)
    ensures Toggled(Removed(ts, id), id) == Removed(ts, id)
    ensures Updated(Removed(ts, id), id, title, dueDate, priority, category) == Removed(ts, id)
  {
  }

  // ---- append ----

  /** Appending a task whose id is new keeps ids unique. */
  lemma AppendPreservesUnique(ts: seq<Todo>, t: Todo)
    requires UniqueIds(ts) && !HasId(ts, t.id)
    ensures UniqueIds(ts + [t])
  {
  }
}
