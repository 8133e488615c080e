/** The task record shared by the backend store, the chat interpreter and the task page,
    with the field constraints the backend declares on it. */
module TaskModel {
  import opened Wrappers

  const MaxTitleLength: nat := 255
  const MaxDescriptionLength: nat := 1000

  /** A stored task. `owner` is the id of the user the task belongs to. */
  datatype Task = Task(
    id: string,
    owner: string,
    title: string,
    description: Option<string>,
    completed: bool)

  predicate ValidTitle(title: string) {
    1 <= |title| <= MaxTitleLength
  }

  predicate ValidDescription(description: Option<string>) {
    description.Some? ==> |description.value| <= MaxDescriptionLength
  }

  /** The record invariant every stored task satisfies. */
  predicate ValidTask(t: Task) {
    ValidTitle(t.title) && ValidDescription(t.description)
  }

  /** The payload of a create request: title, optional description, completion flag. */
  datatype Draft = Draft(title: string, description: Option<string>, completed: bool)

  predicate ValidDraft(d: Draft) {
    ValidTitle(d.title) && ValidDescription(d.description)
  }

  /** A draft that only names its title: the description and the completion flag take
      their declared defaults. */
  function DraftWithDefaults(title: string): (d: Draft)
    ensures d.title == title
    ensures d.description == None && !d.completed
    ensures ValidTitle(title) <==> ValidDraft(d)
  {
    Draft(title, None, false)
  }

  /** One field of an update request: left unset, or set to a value. */
  datatype Patch<T> = Keep | Put(value: T)

  /** An update request: every field is optional. */
  datatype TaskUpdate = TaskUpdate(
    title: Patch<string>,
    description: Patch<Option<string>>,
    completed: Patch<bool>)

  predicate ValidUpdate(u: TaskUpdate) {
    && (u.title.Put? ==> ValidTitle(u.title.value))
    && (u.description.Put? ==> ValidDescription(u.description.value))
  }

  function Apply<T>(p: Patch<T>, old_: T): T {
    match p
    case Keep => old_
    case Put(v) => v
  }

  /** The task with every field the update sets overwritten, all others untouched. */
  function ApplyUpdate(t: Task, u: TaskUpdate): (r: Task)
    ensures r.id == t.id && r.owner == t.owner
    ensures u.title.Keep? ==> r.title == t.title
    ensures u.title.Put? ==> r.title == u.title.value
    ensures u.description.Keep? ==> r.description == t.description
    ensures u.description.Put? ==> r.description == u.description.value
    ensures u.completed.Keep? ==> r.completed == t.completed
    ensures u.completed.Put? ==> r.completed == u.completed.value
    ensures ValidTask(t) && ValidUpdate(u) ==> ValidTask(r)
  {
    t.(title := Apply(u.title, t.title),
       description := Apply(u.description, t.description),
       completed := Apply(u.completed, t.completed))
  }
}
