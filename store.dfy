/**
 * The two tables of the projects API as one value, and what each operation of
 * the projects service does to them, as functions from the tables before to
 * the tables after and the operation's result.
 *
 * New ids come from `mint`, applied to the store's logical clock; the clock
 * also stamps `createdAt`. `mint` stands for the document mapper's id
 * generator: all the model needs of it is that it never repeats an id.
 */
module Store {
  import opened Schemas
  import opened Ordering

  datatype Tables = Tables(projects: map<Id, Project>, tasks: map<Id, Task>, clock: nat)

  /** The id generator never hands out the same id for two clock values. */
  ghost predicate Injective(mint: nat -> Id) {
    forall a: nat, b: nat :: mint(a) == mint(b) ==> a == b
  }

  /**
   * Every stored document was created at a past clock value and is filed under
   * the id minted at that value.
   */
  ghost predicate Stamped(t: Tables, mint: nat -> Id) {
    && (forall k :: k in t.projects ==> t.projects[k].createdAt < t.clock && mint(t.projects[k].createdAt) == k)
    && (forall k :: k in t.tasks ==> t.tasks[k].createdAt < t.clock && mint(t.tasks[k].createdAt) == k)
  }

  /** No two projects, and no two tasks, share a creation stamp. */
  ghost predicate UniqueStamps(t: Tables) {
    && (forall a, b :: a in t.projects && b in t.projects && t.projects[a].createdAt == t.projects[b].createdAt ==> a == b)
    && (forall a, b :: a in t.tasks && b in t.tasks && t.tasks[a].createdAt == t.tasks[b].createdAt ==> a == b)
  }

  lemma StampedHasUniqueStamps(t: Tables, mint: nat -> Id)
    requires Stamped(t, mint)
    ensures UniqueStamps(t)
  {
  }

  /** The id minted at the current clock, or later, names no document yet. */
  lemma FreshId(t: Tables, mint: nat -> Id, n: nat)
    requires Injective(mint) && Stamped(t, mint) && n >= t.clock
    ensures mint(n) !in t.projects && mint(n) !in t.tasks
  {
  }

  // ---------------------------------------------------------------- queries

  /** The creation stamps of the projects. */
  function ProjectStamps(projects: map<Id, Project>): (m: map<Id, nat>)
    ensures m.Keys == projects.Keys && |m| == |projects|
  {
    var m := map k | k in projects :: projects[k].createdAt;
    assert m.Keys == projects.Keys;
    assert |m| == |m.Keys| == |projects.Keys| == |projects|;
    m
  }

  /** The creation stamps of the tasks of one project. */
  function TaskStamps(tasks: map<Id, Task>, projectId: Id): (m: map<Id, nat>)
    ensures forall k :: k in m <==> k in tasks && tasks[k].projectId == projectId
    ensures forall k :: k in m ==> m[k] == tasks[k].createdAt
  {
    map k | k in tasks && tasks[k].projectId == projectId :: tasks[k].createdAt
  }

  /** The documents named by `ids`, in that order. */
  function Lookup<T>(ids: seq<Id>, m: map<Id, T>): (r: seq<(Id, T)>)
    requires forall i :: 0 <= i < |ids| ==> ids[i] in m
    ensures |r| == |ids|
    ensures forall i :: 0 <= i < |r| ==> r[i] == (ids[i], m[ids[i]])
    ensures forall k :: k in ids ==> exists i :: 0 <= i < |r| && r[i].0 == k
  {
    var r := seq(|ids|, i requires 0 <= i < |ids| => (ids[i], m[ids[i]]));
    assert forall i :: 0 <= i < |ids| ==> r[i].0 == ids[i];
    r
  }

  /** `findAll`: every stored project exactly once, newest first. */
  function FindAll(t: Tables): (r: seq<(Id, Project)>)
    requires UniqueStamps(t)
    ensures |r| == |t.projects|
    ensures forall i :: 0 <= i < |r| ==> r[i].0 in t.projects && r[i].1 == t.projects[r[i].0]
    ensures forall k :: k in t.projects ==> exists i :: 0 <= i < |r| && r[i].0 == k
    ensures forall i, j :: 0 <= i < j < |r| ==> r[i].1.createdAt > r[j].1.createdAt
  {
    var stamps := ProjectStamps(t.projects);
    assert DistinctStamps(stamps);
    var ids := NewestFirst(stamps);
    var r := Lookup(ids, t.projects);
    r
  }

  /**
   * `findById`: a malformed id is refused before any lookup; a well-formed id
   * that names no project is not found; otherwise the stored project.
   */
  function FindById(t: Tables, isValidObjectId: Id -> bool, id: Id): (r: Result<Project>)
    ensures !isValidObjectId(id) ==> r == Err(Error(BadRequest, InvalidObjectId))
    ensures isValidObjectId(id) && id !in t.projects ==> r == Err(Error(NotFound, ProjectNotFound))
    ensures r.Ok? <==> isValidObjectId(id) && id in t.projects
    ensures r.Ok? ==> r.value == t.projects[id]
  {
    if !isValidObjectId(id) then Err(Error(BadRequest, InvalidObjectId))
    else if id !in t.projects then Err(Error(NotFound, ProjectNotFound))
    else Ok(t.projects[id])
  }

  /**
   * `findAllTasks`: the tasks whose projectId is `projectId`, newest first,
   * whether or not that project exists. It never fails.
   */
  function FindAllTasks(t: Tables, projectId: Id): (r: seq<(Id, Task)>)
    requires UniqueStamps(t)
    ensures forall i :: 0 <= i < |r| ==> r[i].0 in t.tasks && r[i].1 == t.tasks[r[i].0] && r[i].1.projectId == projectId
    ensures forall k :: k in t.tasks && t.tasks[k].projectId == projectId ==> exists i :: 0 <= i < |r| && r[i].0 == k
    ensures forall i, j :: 0 <= i < j < |r| ==> r[i].1.createdAt > r[j].1.createdAt
  {
    var stamps := TaskStamps(t.tasks, projectId);
    assert DistinctStamps(stamps);
    var ids := NewestFirst(stamps);
    var r := Lookup(ids, t.tasks);
    r
  }

  /** The compound lookup: a task with both this id and this projectId. */
  predicate TaskUnder(tasks: map<Id, Task>, projectId: Id, taskId: Id) {
    taskId in tasks && tasks[taskId].projectId == projectId
  }

  /** `findTaskById`: found only under its own project. */
  function FindTaskById(t: Tables, projectId: Id, taskId: Id): (r: Result<Task>)
    ensures r.Ok? <==> taskId in t.tasks && t.tasks[taskId].projectId == projectId
    ensures r.Ok? ==> r.value == t.tasks[taskId]
    ensures r.Err? ==> r.error == Error(NotFound, TaskNotFound)
  {
    if TaskUnder(t.tasks, projectId, taskId) then Ok(t.tasks[taskId]) else Err(Error(NotFound, TaskNotFound))
  }

  // ------------------------------------------------------------- create

  predicate NameTaken(projects: map<Id, Project>, name: string) {
    exists k :: k in projects && projects[k].name == name
  }

  /** The ids minted for `n` documents created from clock value `first` on. */
  function MintedIds(mint: nat -> Id, first: nat, n: nat): (ids: seq<Id>)
    ensures |ids| == n
    ensures forall i :: 0 <= i < n ==> ids[i] == mint(first + i)
  {
    seq(n, i requires 0 <= i < n => mint(first + i))
  }

  /** Every input of a batch passes the task schema's required title. */
  predicate AllTitled(inputs: seq<TaskInput>) {
    forall i :: 0 <= i < |inputs| ==> Titled(inputs[i].title)
  }

  /**
   * The task documents `create` builds from a validated batch, in order:
   * the i-th under `projectId`, stamped first + i.
   */
  function BatchDocs(inputs: seq<TaskInput>, projectId: Id, first: nat): seq<Task>
    requires AllTitled(inputs)
  {
    seq(|inputs|, i requires 0 <= i < |inputs| => NewTask(inputs[i], projectId, first + i).value)
  }

  /** `insertMany`: the i-th document under id mint(first + i), in order. */
  function InsertTasks(tasks: map<Id, Task>, mint: nat -> Id, first: nat, docs: seq<Task>): (r: map<Id, Task>)
    decreases |docs|
  {
    if docs == [] then tasks
    else
      var n := |docs| - 1;
      InsertTasks(tasks, mint, first, docs[..n])[mint(first + n) := docs[n]]
  }

  /**
   * `create`: a name already held by a project is refused. Without inline
   * tasks the project is stored as given, with an empty task list. With
   * inline tasks the project, listing the ids of its new tasks, is saved
   * first and the tasks are then inserted in one batch; a batch the task
   * schema refuses leaves the saved project in place.
   */
  function Create(t: Tables, mint: nat -> Id, dto: CreateProjectDto): (r: (Tables, Result<(Id, Project)>))
    ensures r.1.Ok? ==> r.1.value.0 in r.0.projects && r.0.projects[r.1.value.0] == r.1.value.1
    ensures r.1.Err? ==> r.0.tasks == t.tasks
  {
    if NameTaken(t.projects, dto.name) then (t, Err(Error(Unprocessable, NameTakenMessage(dto.name))))
    else
      var id := mint(t.clock);
      if dto.tasks.None? || |dto.tasks.value| == 0 then
        var p := Project(dto.name, dto.description, dto.status, dto.userId, [], t.clock);
        (t.(projects := t.projects[id := p], clock := t.clock + 1), Ok((id, p)))
      else
        var inputs := dto.tasks.value;
        var p := Project(dto.name, dto.description, dto.status, dto.userId, MintedIds(mint, t.clock + 1, |inputs|), t.clock);
        var saved := t.(projects := t.projects[id := p], clock := t.clock + 1 + |inputs|);
        if AllTitled(inputs) then
          (saved.(tasks := InsertTasks(t.tasks, mint, t.clock + 1, BatchDocs(inputs, id, t.clock + 1))), Ok((id, p)))
        else
          (saved, Err(Error(Internal, CreateWithTasksFailed)))
  }

  // ------------------------------------------------------------- updateById

  /** An entry names a task when it carries a non-empty id. */
  predicate HasId(e: TaskEntry) {
    e.id.Some? && e.id.value != ""
  }

  /** The ids the entries name. */
  function Supplied(entries: seq<TaskEntry>): set<Id> {
    set i | 0 <= i < |entries| && HasId(entries[i]) :: entries[i].id.value
  }

  /** `deleteMany`: drops the tasks of `projectId` whose id is not in `keep`. */
  function Prune(tasks: map<Id, Task>, projectId: Id, keep: set<Id>): map<Id, Task>
  {
    map k | k in tasks && (tasks[k].projectId != projectId || k in keep) :: tasks[k]
  }

  /**
   * What one entry of an update's list asks the database for, decided from
   * the entry alone: an entry with an id is a `findByIdAndUpdate` of that
   * task with the entry's fields, which the schema's setters trim; one
   * without an id is a new task document, which validation refuses when
   * its title is missing or blank.
   */
  datatype Write =
    | Patch(k: Id, fields: TaskPatch)
    | Insert(title: string, status: string)
    | Refused

  function WriteOf(e: TaskEntry): Write {
    if HasId(e) then Patch(e.id.value, Cast(TaskPatch(e.title, e.status)))
    else if Titled(e.title) then Insert(Trim(e.title.value), StatusOf(e.status))
    else Refused
  }

  /** The writes of a list, one per entry, in order. */
  function Writes(entries: seq<TaskEntry>): (ws: seq<Write>)
    ensures |ws| == |entries|
    ensures forall i :: 0 <= i < |entries| ==>
      && (ws[i].Patch? <==> HasId(entries[i]))
      && (ws[i].Patch? ==> ws[i].k == entries[i].id.value)
      && (ws[i].Refused? <==> !HasId(entries[i]) && !Titled(entries[i].title))
  {
    seq(|entries|, i requires 0 <= i < |entries| => WriteOf(entries[i]))
  }

  /**
   * One write: a new task goes under `projectId`, stamped and keyed from the
   * clock; a patch changes that task, whatever its project. None: the write
   * produced no task (a refused document, or an id that names no task).
   */
  function ApplyEntry(t: Tables, mint: nat -> Id, projectId: Id, w: Write): (r: (Tables, Option<Id>))
    ensures r.0.projects == t.projects && r.0.clock >= t.clock
  {
    match w
    case Insert(title, status) =>
      (t.(tasks := t.tasks[mint(t.clock) := Task(title, status, projectId, t.clock)], clock := t.clock + 1), Some(mint(t.clock)))
    case Patch(k, fields) =>
      if k in t.tasks then (t.(tasks := t.tasks[k := Overlay(t.tasks[k], fields)]), Some(k)) else (t, None)
    case Refused => (t, None)
  }

  /** The tables after a prefix of the writes, the task ids produced so far, and whether one failed. */
  datatype Batch = Batch(tables: Tables, ids: seq<Id>, failed: bool)

  /** All writes, in list order; a failed one does not stop the others. */
  function Reconcile(t: Tables, mint: nat -> Id, projectId: Id, writes: seq<Write>): (b: Batch)
    ensures b.tables.projects == t.projects && b.tables.clock >= t.clock
    decreases |writes|
  {
    if writes == [] then Batch(t, [], false)
    else
      var b := Reconcile(t, mint, projectId, writes[..|writes| - 1]);
      var (t', r) := ApplyEntry(b.tables, mint, projectId, writes[|writes| - 1]);
      match r
      case None => Batch(t', b.ids, true)
      case Some(k) => Batch(t', b.ids + [k], b.failed)
  }

  /** `findByIdAndUpdate` of the project: null (None) when no project has that id. */
  function Overwrite(t: Tables, id: Id, dto: UpdateProjectDto, taskIds: seq<Id>): (r: (Tables, Result<Option<Project>>))
    ensures r.1.Ok? && (r.1.value.Some? <==> id in t.projects)
    ensures r.1.value.Some? ==> r.0.projects == t.projects[id := r.1.value.value] && r.1.value.value.tasks == taskIds
    ensures r.0.tasks == t.tasks
  {
    if id in t.projects then
      var p := PatchProject(t.projects[id], dto, taskIds);
      (t.(projects := t.projects[id := p]), Ok(Some(p)))
    else
      (t, Ok(None))
  }

  /**
   * `updateById`: with a non-empty task list, prune the project's tasks to the
   * named ones, apply every entry, and on success replace the project's list
   * by the produced ids; an entry that produced no task makes the whole call
   * fail after the task table has changed. Without a task list, the
   * project's list becomes empty.
   */
  function UpdateById(t: Tables, mint: nat -> Id, id: Id, dto: UpdateProjectDto): (r: (Tables, Result<Option<Project>>))
    ensures r.1.Ok? ==> (r.1.value.Some? <==> id in t.projects)
    ensures r.1.Ok? && r.1.value.Some? ==> id in r.0.projects && r.0.projects[id] == r.1.value.value
    ensures r.1.Err? ==> r.0.projects == t.projects
  {
    var entries := dto.tasks.GetOr([]);
    if |entries| == 0 then Overwrite(t, id, dto, [])
    else
      var b := Reconcile(t.(tasks := Prune(t.tasks, id, Supplied(entries))), mint, id, Writes(entries));
      if b.failed then (b.tables, Err(Error(Internal, InternalServerError)))
      else Overwrite(b.tables, id, dto, b.ids)
  }

  // ------------------------------------------------------------- removeById

  /** `removeById`: deletes the project only, returning it (None when absent). */
  function RemoveById(t: Tables, id: Id): (r: (Tables, Option<Project>))
    ensures id !in r.0.projects && r.0.tasks == t.tasks
    ensures r.1.Some? <==> id in t.projects
  {
    if id in t.projects then (t.(projects := t.projects - {id}), Some(t.projects[id]))
    else (t, None)
  }

  // ------------------------------------------------------------- task routes

  /**
   * `createTask`: an empty projectId is refused; otherwise the task is stored
   * under that projectId, and only then is the project's existence decided:
   * a missing project fails with the task left stored, an existing one gets
   * the new id appended to its list and is returned.
   */
  function CreateTask(t: Tables, mint: nat -> Id, projectId: Id, input: TaskInput): (r: (Tables, Result<Project>))
    ensures r.1.Ok? ==> projectId in r.0.projects && r.0.projects[projectId] == r.1.value
    ensures r.1.Ok? ==> projectId in t.projects && r.1.value.tasks == t.projects[projectId].tasks + [mint(t.clock)] && mint(t.clock) in r.0.tasks
  {
    if projectId == "" then (t, Err(Error(BadRequest, ProjectIdRequired)))
    else
      match NewTask(input, projectId, t.clock)
      case None => (t, Err(Error(Internal, InternalServerError)))
      case Some(task) =>
        var taskId := mint(t.clock);
        var t1 := t.(tasks := t.tasks[taskId := task], clock := t.clock + 1);
        if projectId in t.projects then
          var p := t.projects[projectId].(tasks := t.projects[projectId].tasks + [taskId]);
          (t1.(projects := t1.projects[projectId := p]), Ok(p))
        else
          (t1, Err(Error(NotFound, ProjectNotFound)))
  }

  /** `updateTaskById`: patches the task only when it is under that project. */
  function UpdateTaskById(t: Tables, projectId: Id, taskId: Id, patch: TaskPatch): (r: (Tables, Result<Task>))
    ensures r.1.Ok? <==> TaskUnder(t.tasks, projectId, taskId)
    ensures r.1.Ok? ==> r.0.tasks == t.tasks[taskId := r.1.value]
  {
    if TaskUnder(t.tasks, projectId, taskId) then
      var task := PatchTask(t.tasks[taskId], patch);
      (t.(tasks := t.tasks[taskId := task]), Ok(task))
    else
      (t, Err(Error(NotFound, TaskNotFound)))
  }

  /** The list without any occurrence of `x`, the others in their order. */
  function Without(s: seq<Id>, x: Id): (r: seq<Id>)
    ensures forall y :: y in r <==> y in s && y != x
    ensures |r| <= |s|
    ensures x !in s ==> r == s
  {
    if s == [] then []
    else if s[0] == x then Without(s[1..], x)
    else [s[0]] + Without(s[1..], x)
  }

  /**
   * `removeTaskById`: a missing project fails with nothing changed; otherwise
   * the task id is filtered out of the project's list and the project saved
   * BEFORE the compound lookup, which may still fail; on success the task is
   * deleted.
   */
  function RemoveTaskById(t: Tables, projectId: Id, taskId: Id): (r: (Tables, Result<string>))
    ensures r.1.Ok? <==> projectId in t.projects && TaskUnder(t.tasks, projectId, taskId)
    ensures r.1.Ok? ==> r.0.tasks == t.tasks - {taskId}
  {
    if projectId !in t.projects then (t, Err(Error(NotFound, ProjectNotFound)))
    else
      var p := t.projects[projectId];
      var t1 := t.(projects := t.projects[projectId := p.(tasks := Without(p.tasks, taskId))]);
      if !TaskUnder(t1.tasks, projectId, taskId) then (t1, Err(Error(NotFound, TaskNotFound)))
      else (t1.(tasks := t1.tasks - {taskId}), Ok(TaskDeleted))
  }
}
