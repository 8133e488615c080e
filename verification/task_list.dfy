/** The task page's list reducers: how the shown list changes when a task is created,
    updated, deleted or has its completion toggled. Tasks are matched by id. */
module TaskList {
  import opened TaskModel

  /** A created task goes to the front of the list. */
  function OnCreated(tasks: seq<Task>, created: Task): (r: seq<Task>)
    ensures |r| == |tasks| + 1
    ensures r[0] == created && r[1..] == tasks
  {
    [created] + tasks
  }

  /** Every task with the updated task's id is replaced by it; the rest stay where they are. */
  function OnUpdated(tasks: seq<Task>, updated: Task): (r: seq<Task>)
    ensures |r| == |tasks|
    ensures forall i :: 0 <= i < |tasks| && tasks[i].id == updated.id ==> r[i] == updated
    ensures forall i :: 0 <= i < |tasks| && tasks[i].id != updated.id ==> r[i] == tasks[i]
  {
    seq(|tasks|, i requires 0 <= i < |tasks| => if tasks[i].id == updated.id then updated else tasks[i])
  }

  /** Every task with this id leaves the list. */
  function OnDeleted(tasks: seq<Task>, id: string): (r: seq<Task>)
    ensures |r| <= |tasks|
    ensures forall t :: t in r <==> t in tasks && t.id != id
  {
    if |tasks| == 0 then []
    else (if tasks[0].id == id then [] else [tasks[0]]) + OnDeleted(tasks[1..], id)
  }

  /** A completion toggle is handled exactly as an update. */
  function OnCompletedToggle(tasks: seq<Task>, updated: Task): (r: seq<Task>)
    ensures |r| == |tasks|
    ensures forall i :: 0 <= i < |tasks| && tasks[i].id == updated.id ==> r[i] == updated
    ensures forall i :: 0 <= i < |tasks| && tasks[i].id != updated.id ==> r[i] == tasks[i]
  {
    OnUpdated(tasks, updated)
  }

  /** Deleting keeps the relative order of what stays: it distributes over a split of the
      list, so each part keeps its remaining tasks in place. */
  lemma {:induction false} OnDeletedAppend(a: seq<Task>, b: seq<Task>, id: string)
    ensures OnDeleted(a + b, id) == OnDeleted(a, id) + OnDeleted(b, id)
  {
    if |a| == 0 {
      assert a + b == b;
    } else {
      assert (a + b)[0] == a[0];
      assert (a + b)[1..] == a[1..] + b;
      OnDeletedAppend(a[1..], b, id);
    }
  }

  /** A list without the id is left as it is by a delete. */
  lemma {:induction false} OnDeletedAbsent(tasks: seq<Task>, id: string)
    requires forall i :: 0 <= i < |tasks| ==> tasks[i].id != id
    ensures OnDeleted(tasks, id) == tasks
  {
    if |tasks| > 0 {
      OnDeletedAbsent(tasks[1..], id);
    }
  }

  /** Deleting twice is deleting once. */
  lemma OnDeletedIdempotent(tasks: seq<Task>, id: string)
    ensures OnDeleted(OnDeleted(tasks, id), id) == OnDeleted(tasks, id)
  {
    var r := OnDeleted(tasks, id);
    assert forall i :: 0 <= i < |r| ==> r[i] in r;
    OnDeletedAbsent(r, id);
  }

  /** Deleting a task that was just created with a fresh id gives back the list from before. */
  lemma DeleteUndoesCreate(tasks: seq<Task>, created: Task)
    requires forall i :: 0 <= i < |tasks| ==> tasks[i].id != created.id
    ensures OnDeleted(OnCreated(tasks, created), created.id) == tasks
  {
    OnDeletedAppend([created], tasks, created.id);
    OnDeletedAbsent(tasks, created.id);
    assert [created][1..] == [];
  }

  /** Deleting an id after updating it is the same as deleting it straight away. */
  lemma {:induction false} DeleteAfterUpdate(tasks: seq<Task>, updated: Task)
    ensures OnDeleted(OnUpdated(tasks, updated), updated.id) == OnDeleted(tasks, updated.id)
  {
    if |tasks| > 0 {
      var u := OnUpdated(tasks, updated);
      assert u[1..] == OnUpdated(tasks[1..], updated);
      DeleteAfterUpdate(tasks[1..], updated);
    }
  }

  /** Updating twice with the same task is updating once. */
  lemma OnUpdatedIdempotent(tasks: seq<Task>, updated: Task)
    ensures OnUpdated(OnUpdated(tasks, updated), updated) == OnUpdated(tasks, updated)
  {
  }
}
