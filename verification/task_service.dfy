/** The backend's task store: every user's tasks in one collection, where each operation
    reaches a task only through its id together with its owner's id. */
module TaskService {
  import opened Wrappers
  import opened TaskModel

  /** The stored tasks of all users, in storage order. */
  type Db = seq<Task>

  /** No two stored tasks share an id (the id is the primary key). */
  predicate UniqueIds(db: Db) {
    forall i, j :: 0 <= i < j < |db| ==> db[i].id != db[j].id
  }

  /** The store invariant: unique ids and every task within the declared field bounds. */
  predicate ValidDb(db: Db) {
    UniqueIds(db) && forall i :: 0 <= i < |db| ==> ValidTask(db[i])
  }

  /** Some stored task has this id, whoever owns it. */
  predicate HasId(db: Db, id: string) {
    exists i :: 0 <= i < |db| && db[i].id == id
  }

  /** `t` has id `id` and belongs to `user`. */
  predicate IsOwned(t: Task, id: string, user: string) {
    t.id == id && t.owner == user
  }

  /** Some stored task has this id and belongs to this user. */
  predicate Owns(db: Db, id: string, user: string) {
    exists i :: 0 <= i < |db| && IsOwned(db[i], id, user)
  }

  /** What a changing operation leaves behind: the new store and what it returns. */
  datatype Step<T> = Step(db: Db, value: T)

  // ---------------------------------------------------------------- create

  /** Stores a new task for `user` built from the draft. The id is drawn at random in the
      source; here it is given, and an id already in use fails as the primary key does. */
  function CreateTask(db: Db, draft: Draft, user: string, id: string): (r: Step<Option<Task>>)
    ensures r.value.None? <==> HasId(db, id)
    ensures r.value.None? ==> r.db == db
    ensures r.value.Some? ==>
      && r.value.value.id == id && r.value.value.owner == user
      && r.value.value.title == draft.title
      && r.value.value.description == draft.description
      && r.value.value.completed == draft.completed
      && r.db == db + [r.value.value]
  {
    if HasId(db, id) then Step(db, None)
    else
      var t := Task(id, user, draft.title, draft.description, draft.completed);
      Step(db + [t], Some(t))
  }

  /** Creating keeps the store invariant when the draft is within the field bounds. */
  lemma CreateKeepsValid(db: Db, draft: Draft, user: string, id: string)
    requires ValidDb(db) && ValidDraft(draft)
    ensures ValidDb(CreateTask(db, draft, user, id).db)
  {
    var r := CreateTask(db, draft, user, id);
    if r.value.Some? {
      forall i, j | 0 <= i < j < |r.db| ensures r.db[i].id != r.db[j].id {
        if j == |db| {
          assert r.db[i] == db[i];
        }
      }
    }
  }

  /** A created task can be read back by its creator under its id. */
  lemma ReadAfterCreate(db: Db, draft: Draft, user: string, id: string)
    requires !HasId(db, id)
    ensures var r := CreateTask(db, draft, user, id);
      r.value.Some? && GetTask(r.db, id, user) == r.value
  {
    var r := CreateTask(db, draft, user, id);
    assert IsOwned(r.db[|db|], id, user);
    assert forall j :: 0 <= j < |db| ==> r.db[j] == db[j];
    assert Locate(r.db, id, user).value == |db|;
  }

  // ---------------------------------------------------------------- get

  /** A task `get_tasks` selects: owned by `user` and, when a filter is given, with that
      completion state. */
  predicate Selected(t: Task, user: string, completed: Option<bool>) {
    t.owner == user && (completed.Some? ==> t.completed == completed.value)
  }

  /** The tasks of `user`, restricted to a completion state when one is given, in storage
      order. */
  function GetTasks(db: Db, user: string, completed: Option<bool>): (r: seq<Task>)
    ensures |r| <= |db|
    ensures forall t :: t in r <==> t in db && Selected(t, user, completed)
  {
    if |db| == 0 then []
    else
      var rest := GetTasks(db[..|db| - 1], user, completed);
      var last := db[|db| - 1];
      assert db == db[..|db| - 1] + [last];
      if Selected(last, user, completed) then rest + [last] else rest
  }

  /** Listing distributes over a split of the store. */
  lemma {:induction false} GetTasksAppend(a: Db, b: Db, user: string, completed: Option<bool>)
    ensures GetTasks(a + b, user, completed) == GetTasks(a, user, completed) + GetTasks(b, user, completed)
    decreases |b|
  {
    if |b| == 0 {
      assert a + b == a;
    } else {
      var b' := b[..|b| - 1];
      assert (a + b)[..|a + b| - 1] == a + b';
      assert (a + b)[|a + b| - 1] == b[|b| - 1];
      GetTasksAppend(a, b', user, completed);
    }
  }

  /** The position of the task with this id and owner, if there is one. */
  function Locate(db: Db, id: string, user: string): (r: Option<nat>)
    ensures r.Some? <==> Owns(db, id, user)
    ensures r.Some? ==> r.value < |db| && IsOwned(db[r.value], id, user)
    ensures r.Some? ==> forall j :: 0 <= j < r.value ==> !IsOwned(db[j], id, user)
  {
    LocateFrom(db, id, user, 0)
  }

  function LocateFrom(db: Db, id: string, user: string, from: nat): (r: Option<nat>)
    requires from <= |db|
    requires forall j :: 0 <= j < from ==> !IsOwned(db[j], id, user)
    ensures r.Some? <==> Owns(db, id, user)
    ensures r.Some? ==> from <= r.value < |db| && IsOwned(db[r.value], id, user)
    ensures r.Some? ==> forall j :: 0 <= j < r.value ==> !IsOwned(db[j], id, user)
    decreases |db| - from
  {
    if from == |db| then None
    else if IsOwned(db[from], id, user) then Some(from)
    else LocateFrom(db, id, user, from + 1)
  }

  /** The task with this id, but only when it belongs to `user`. */
  function GetTask(db: Db, id: string, user: string): (r: Option<Task>)
    ensures r.Some? <==> Owns(db, id, user)
    ensures r.Some? ==> r.value in db && IsOwned(r.value, id, user)
  {
    match Locate(db, id, user)
    case None => None
    case Some(i) => Some(db[i])
  }

  /** No user reads another user's task: whatever `GetTask` returns to `user` is theirs, and
      a task owned by someone else is never returned under its id. */
  lemma NoForeignRead(db: Db, id: string, user: string)
    requires UniqueIds(db)
    requires exists i :: 0 <= i < |db| && db[i].id == id && db[i].owner != user
    ensures GetTask(db, id, user).None?
  {
  }

  // ---------------------------------------------------------------- update

  /** Overwrites the fields the update sets on the user's task with this id. A task that is
      not the user's is left alone and nothing is returned. */
  function UpdateTask(db: Db, id: string, update: TaskUpdate, user: string): (r: Step<Option<Task>>)
    ensures r.value.None? <==> !Owns(db, id, user)
    ensures r.value.None? ==> r.db == db
    ensures r.value.Some? ==>
      var i := Locate(db, id, user).value;
      && r.value.value == ApplyUpdate(db[i], update)
      && |r.db| == |db| && r.db[i] == r.value.value
      && forall j :: 0 <= j < |db| && j != i ==> r.db[j] == db[j]
  {
    match Locate(db, id, user)
    case None => Step(db, None)
    case Some(i) =>
      var t := ApplyUpdate(db[i], update);
      Step(db[i := t], Some(t))
  }

  /** Replacing a task by one with the same id and owner keeps the ids unique. */
  lemma ReplaceKeepsValid(db: Db, i: nat, t: Task)
    requires ValidDb(db) && i < |db|
    requires t.id == db[i].id && ValidTask(t)
    ensures ValidDb(db[i := t])
  {
  }

  /** Updating keeps the store invariant when the update is within the field bounds, and a
      later read returns the updated task. */
  lemma UpdateKeepsValid(db: Db, id: string, update: TaskUpdate, user: string)
    requires ValidDb(db) && ValidUpdate(update)
    ensures var r := UpdateTask(db, id, update, user);
      ValidDb(r.db) && GetTask(r.db, id, user) == r.value
  {
    var r := UpdateTask(db, id, update, user);
    if r.value.Some? {
      var i := Locate(db, id, user).value;
      ReplaceKeepsValid(db, i, r.value.value);
      ReadAfterReplace(db, i, r.value.value, id, user);
    }
  }

  /** After a task is replaced by one with the same id and owner, looking it up finds the
      replacement. */
  lemma ReadAfterReplace(db: Db, i: nat, t: Task, id: string, user: string)
    requires i < |db| && Locate(db, id, user) == Some(i)
    requires IsOwned(t, id, user)
    ensures GetTask(db[i := t], id, user) == Some(t)
  {
    var db' := db[i := t];
    assert IsOwned(db'[i], id, user);
    assert forall j :: 0 <= j < i ==> db'[j] == db[j];
    assert Locate(db', id, user).value == i;
  }

  // ---------------------------------------------------------------- delete

  /** Removes the user's task with this id and says whether there was one. */
  function DeleteTask(db: Db, id: string, user: string): (r: Step<bool>)
    ensures r.value <==> Owns(db, id, user)
    ensures !r.value ==> r.db == db
    ensures r.value ==>
      var i := Locate(db, id, user).value;
      r.db == db[..i] + db[i + 1..]
  {
    match Locate(db, id, user)
    case None => Step(db, false)
    case Some(i) => Step(db[..i] + db[i + 1..], true)
  }

  /** A successful delete removes exactly one task, the one with that id: no task with the id
      is left, and the others keep their relative order. */
  lemma DeleteRemovesExactlyThatTask(db: Db, id: string, user: string)
    requires UniqueIds(db) && Owns(db, id, user)
    ensures var r := DeleteTask(db, id, user);
      && |r.db| == |db| - 1
      && !HasId(r.db, id)
      && forall t :: t in db && t.id != id ==> t in r.db
  {
    var r := DeleteTask(db, id, user);
    var i := Locate(db, id, user).value;
    assert r.db == db[..i] + db[i + 1..];
    forall k | 0 <= k < |r.db| ensures r.db[k].id != id {
      if k < i {
        assert r.db[k] == db[k];
      } else {
        assert r.db[k] == db[k + 1];
      }
    }
    forall t | t in db && t.id != id ensures t in r.db {
      var k :| 0 <= k < |db| && db[k] == t;
      if k < i {
        assert r.db[k] == t;
      } else {
        assert k != i;
        assert r.db[k - 1] == t;
      }
    }
  }

  /** Deleting keeps the store invariant. */
  lemma DeleteKeepsValid(db: Db, id: string, user: string)
    requires ValidDb(db)
    ensures ValidDb(DeleteTask(db, id, user).db)
  {
    var r := DeleteTask(db, id, user);
    if r.value {
      var i := Locate(db, id, user).value;
      forall k | 0 <= k < |r.db| ensures r.db[k] == db[if k < i then k else k + 1] {
      }
    }
  }

  // ---------------------------------------------------------------- toggle

  /** Flips the completion state of the user's task with this id; nothing else changes. */
  function ToggleTask(db: Db, id: string, user: string): (r: Step<Option<Task>>)
    ensures r.value.None? <==> !Owns(db, id, user)
    ensures r.value.None? ==> r.db == db
    ensures r.value.Some? ==>
      var i := Locate(db, id, user).value;
      && r.value.value == db[i].(completed := !db[i].completed)
      && |r.db| == |db| && r.db[i] == r.value.value
      && forall j :: 0 <= j < |db| && j != i ==> r.db[j] == db[j]
  {
    match Locate(db, id, user)
    case None => Step(db, None)
    case Some(i) =>
      var t := db[i].(completed := !db[i].completed);
      Step(db[i := t], Some(t))
  }

  /** Toggling twice restores the store. */
  lemma ToggleTwiceRestores(db: Db, id: string, user: string)
    ensures ToggleTask(ToggleTask(db, id, user).db, id, user).db == db
  {
    var once := ToggleTask(db, id, user);
    if once.value.Some? {
      var i := Locate(db, id, user).value;
      ReadAfterReplace(db, i, once.value.value, id, user);
      assert Locate(once.db, id, user) == Some(i);
      assert once.db[i := db[i]] == db;
    }
  }

  // ---------------------------------------------------------------- isolation

  /** Replacing one of `user`'s tasks by another task of `user` leaves every other user's
      listing unchanged. */
  lemma ReplaceIsolated(db: Db, i: nat, t: Task, user: string, other: string, completed: Option<bool>)
    requires i < |db| && db[i].owner == user && t.owner == user && other != user
    ensures GetTasks(db[i := t], other, completed) == GetTasks(db, other, completed)
  {
    var db' := db[i := t];
    assert db == db[..i] + [db[i]] + db[i + 1..];
    assert db' == db[..i] + [t] + db[i + 1..];
    GetTasksAppend(db[..i] + [db[i]], db[i + 1..], other, completed);
    GetTasksAppend(db[..i], [db[i]], other, completed);
    GetTasksAppend(db[..i] + [t], db[i + 1..], other, completed);
    GetTasksAppend(db[..i], [t], other, completed);
    assert GetTasks([t], other, completed) == [] == GetTasks([db[i]], other, completed) by {
      assert [t][..0] == [] && [db[i]][..0] == [];
    }
  }

  /** Creating a task for one user leaves every other user's listing unchanged. */
  lemma CreateIsolated(db: Db, draft: Draft, user: string, newId: string,
                       other: string, completed: Option<bool>)
    requires other != user
    ensures GetTasks(CreateTask(db, draft, user, newId).db, other, completed) == GetTasks(db, other, completed)
  {
    var created := CreateTask(db, draft, user, newId);
    if created.value.Some? {
      GetTasksAppend(db, [created.value.value], other, completed);
      assert [created.value.value][..0] == [];
    }
  }

  /** Updating one user's task leaves every other user's listing unchanged. */
  lemma UpdateIsolated(db: Db, id: string, update: TaskUpdate, user: string,
                       other: string, completed: Option<bool>)
    requires other != user
    ensures GetTasks(UpdateTask(db, id, update, user).db, other, completed) == GetTasks(db, other, completed)
  {
    var updated := UpdateTask(db, id, update, user);
    if updated.value.Some? {
      var i := Locate(db, id, user).value;
      assert updated.db == db[i := updated.value.value];
      ReplaceIsolated(db, i, updated.value.value, user, other, completed);
    }
  }

  /** Toggling one user's task leaves every other user's listing unchanged. */
  lemma ToggleIsolated(db: Db, id: string, user: string, other: string, completed: Option<bool>)
    requires other != user
    ensures GetTasks(ToggleTask(db, id, user).db, other, completed) == GetTasks(db, other, completed)
  {
    var toggled := ToggleTask(db, id, user);
    if toggled.value.Some? {
      var i := Locate(db, id, user).value;
      assert toggled.db == db[i := toggled.value.value];
      ReplaceIsolated(db, i, toggled.value.value, user, other, completed);
    }
  }

  /** Deleting one user's task leaves every other user's listing unchanged. */
  lemma DeleteIsolated(db: Db, id: string, user: string, other: string, completed: Option<bool>)
    requires other != user
    ensures GetTasks(DeleteTask(db, id, user).db, other, completed) == GetTasks(db, other, completed)
  {
    var deleted := DeleteTask(db, id, user);
    if deleted.value {
      var i := Locate(db, id, user).value;
      var front, back := db[..i], db[i + 1..];
      assert db == front + [db[i]] + back;
      assert deleted.db == front + back;
      GetTasksAppend(front + [db[i]], back, other, completed);
      GetTasksAppend(front, [db[i]], other, completed);
      GetTasksAppend(front, back, other, completed);
      assert [db[i]][..0] == [];
    }
  }
}
