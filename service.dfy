/**
 * `ProjectsService`: the two tables as fields, updated in place the way the
 * service updates its collections. Each method is proved to leave the tables
 * as the matching `Store` function says, and to keep them `Stamped`, so the
 * properties proved about `Store` hold of the service.
 */
module Service {
  import opened Schemas
  import opened Ordering
  import opened Store
  import opened Properties

  class ProjectsService {
    var projects: map<Id, Project>
    var tasks: map<Id, Task>
    /** The logical clock: the next creation stamp, from which the next id is minted. */
    var clock: nat

    /** The document mapper's id generator. */
    const mint: nat -> Id
    /** `mongoose.isValidObjectId`, left abstract. */
    const isValidObjectId: Id -> bool

    function Snapshot(): Tables
      reads this
    {
      Tables(projects, tasks, clock)
    }

    ghost predicate Valid()
      reads this
    {
      Injective(mint) && Stamped(Snapshot(), mint)
    }

    constructor(mint: nat -> Id, isValidObjectId: Id -> bool)
      requires Injective(mint)
      ensures Valid()
      ensures Snapshot() == Tables(map[], map[], 0)
      ensures this.mint == mint && this.isValidObjectId == isValidObjectId
    {
      projects := map[];
      tasks := map[];
      clock := 0;
      this.mint := mint;
      this.isValidObjectId := isValidObjectId;
    }

    /** `create`: refuse a taken name, save the project, then insert its tasks in one batch. */
    method Create(dto: CreateProjectDto) returns (r: Result<(Id, Project)>)
      requires Valid()
      modifies this
      ensures Valid()
      ensures (Snapshot(), r) == Store.Create(old(Snapshot()), mint, dto)
    {
      if NameTaken(projects, dto.name) {
        r := Err(Error(Unprocessable, NameTakenMessage(dto.name)));
        return;
      }
      if dto.tasks.Some? && |dto.tasks.value| > 0 {
        r := CreateWithTasks(dto);
        return;
      }
      ghost var t0 := Snapshot();
      CreateKeepsStamped(t0, mint, dto);
      var id := mint(clock);
      var p := Project(dto.name, dto.description, dto.status, dto.userId, [], clock);
      projects := projects[id := p];
      clock := clock + 1;
      r := Ok((id, p));
      assert Snapshot() == Store.Create(t0, mint, dto).0;
    }

    /** The inline-task branch of `create`: the project, listing the batch's ids, is saved before the batch. */
    method CreateWithTasks(dto: CreateProjectDto) returns (r: Result<(Id, Project)>)
      requires Valid()
      requires !NameTaken(projects, dto.name) && dto.tasks.Some? && |dto.tasks.value| > 0
      modifies this
      ensures Valid()
      ensures (Snapshot(), r) == Store.Create(old(Snapshot()), mint, dto)
    {
      ghost var t0 := Snapshot();
      CreateKeepsStamped(t0, mint, dto);
      var id := mint(clock);
      var inputs := dto.tasks.value;
      var first := clock + 1;
      var p := Project(dto.name, dto.description, dto.status, dto.userId, MintedIds(mint, first, |inputs|), clock);
      projects := projects[id := p];
      clock := first + |inputs|;
      if !AllTitled(inputs) {
        r := Err(Error(Internal, CreateWithTasksFailed));
        assert Snapshot() == Store.Create(t0, mint, dto).0;
        return;
      }
      InsertMany(first, BatchDocs(inputs, id, first));
      r := Ok((id, p));
      assert Snapshot() == Store.Create(t0, mint, dto).0;
    }

    /** `insertMany` of a validated batch: the i-th document under id mint(first + i). */
    method InsertMany(first: nat, docs: seq<Task>)
      modifies this
      ensures tasks == InsertTasks(old(tasks), mint, first, docs)
      ensures projects == old(projects) && clock == old(clock)
    {
      var i := 0;
      while i < |docs|
        invariant 0 <= i <= |docs|
        invariant tasks == InsertTasks(old(tasks), mint, first, docs[..i])
        invariant projects == old(projects) && clock == old(clock)
      {
        assert docs[..i + 1][..i] == docs[..i];
        tasks := tasks[mint(first + i) := docs[i]];
        i := i + 1;
      }
      assert docs[..i] == docs;
    }

    /** `findAll`. */
    method FindAll() returns (r: seq<(Id, Project)>)
      requires Valid()
      ensures UniqueStamps(Snapshot()) && r == Store.FindAll(Snapshot())
    {
      StampedHasUniqueStamps(Snapshot(), mint);
      r := Store.FindAll(Snapshot());
    }

    /** `findById`: the id's syntax is checked before the lookup. */
    method FindById(id: Id) returns (r: Result<Project>)
      ensures r == Store.FindById(Snapshot(), isValidObjectId, id)
    {
      if !isValidObjectId(id) {
        return Err(Error(BadRequest, InvalidObjectId));
      }
      if id !in projects {
        return Err(Error(NotFound, ProjectNotFound));
      }
      r := Ok(projects[id]);
    }

    /**
     * `updateById`: with a non-empty list, delete this project's tasks the
     * list does not name, then go through the entries in order, and finally
     * overwrite the project with the given fields and the produced ids.
     */
    method UpdateById(id: Id, dto: UpdateProjectDto) returns (r: Result<Option<Project>>)
      requires Valid()
      modifies this
      ensures Valid()
      ensures (Snapshot(), r) == Store.UpdateById(old(Snapshot()), mint, id, dto)
    {
      ghost var t0 := Snapshot();
      UpdateByIdKeepsStamped(t0, mint, id, dto);
      var entries := dto.tasks.GetOr([]);
      var taskIds: seq<Id> := [];
      if |entries| > 0 {
        tasks := Prune(tasks, id, Supplied(entries));
        var failed;
        taskIds, failed := SaveEntries(id, entries);
        if failed {
          r := Err(Error(Internal, InternalServerError));
          return;
        }
      }
      if id in projects {
        var p := PatchProject(projects[id], dto, taskIds);
        projects := projects[id := p];
        r := Ok(Some(p));
      } else {
        r := Ok(None);
      }
    }

    /** The entries of an update's list saved one after the other; a failed one does not stop the rest. */
    method SaveEntries(projectId: Id, entries: seq<TaskEntry>) returns (taskIds: seq<Id>, failed: bool)
      modifies this
      ensures Batch(Snapshot(), taskIds, failed) == Reconcile(old(Snapshot()), mint, projectId, Writes(entries))
    {
      ghost var ws := Writes(entries);
      taskIds, failed := [], false;
      var i := 0;
      while i < |entries|
        invariant 0 <= i <= |entries|
        invariant Batch(Snapshot(), taskIds, failed) == Reconcile(old(Snapshot()), mint, projectId, ws[..i])
      {
        assert ws[..i + 1][..i] == ws[..i];
        var k := SaveEntry(projectId, entries[i]);
        if k.None? {
          failed := true;
        } else {
          taskIds := taskIds + [k.value];
        }
        i := i + 1;
      }
      assert ws[..i] == ws;
    }

    /**
     * One entry of an update's task list: without an id, create a task under
     * `projectId`; with one, patch that task (None when the task schema
     * refuses the new task or the id names no task).
     */
    method SaveEntry(projectId: Id, e: TaskEntry) returns (k: Option<Id>)
      modifies this
      ensures (Snapshot(), k) == Store.ApplyEntry(old(Snapshot()), mint, projectId, WriteOf(e))
    {
      if !HasId(e) {
        if !Titled(e.title) {
          return None;
        }
        var id := mint(clock);
        tasks := tasks[id := NewTask(TaskInput(e.title, e.status, None), projectId, clock).value];
        clock := clock + 1;
        k := Some(id);
      } else if e.id.value in tasks {
        var id := e.id.value;
        tasks := tasks[id := PatchTask(tasks[id], TaskPatch(e.title, e.status))];
        k := Some(id);
      } else {
        k := None;
      }
    }

    /** `removeById`: the project only. */
    method RemoveById(id: Id) returns (r: Option<Project>)
      requires Valid()
      modifies this
      ensures Valid()
      ensures (Snapshot(), r) == Store.RemoveById(old(Snapshot()), id)
    {
      if id in projects {
        r := Some(projects[id]);
        projects := projects - {id};
      } else {
        r := None;
      }
    }

    /** `createTask`: the project is looked up, the task stored, and only then is the lookup's outcome acted on. */
    method CreateTask(projectId: Id, input: TaskInput) returns (r: Result<Project>)
      requires Valid()
      modifies this
      ensures Valid()
      ensures (Snapshot(), r) == Store.CreateTask(old(Snapshot()), mint, projectId, input)
    {
      CreateTaskKeepsStamped(Snapshot(), mint, projectId, input);
      if projectId == "" {
        r := Err(Error(BadRequest, ProjectIdRequired));
        return;
      }
      var found := projectId in projects;
      if !Titled(input.title) {
        r := Err(Error(Internal, InternalServerError));
        return;
      }
      var taskId := mint(clock);
      tasks := tasks[taskId := NewTask(input, projectId, clock).value];
      clock := clock + 1;
      if found {
        var p := projects[projectId];
        p := p.(tasks := p.tasks + [taskId]);
        projects := projects[projectId := p];
        r := Ok(p);
      } else {
        r := Err(Error(NotFound, ProjectNotFound));
      }
    }

    /** `findAllTasks`. */
    method FindAllTasks(projectId: Id) returns (r: seq<(Id, Task)>)
      requires Valid()
      ensures UniqueStamps(Snapshot()) && r == Store.FindAllTasks(Snapshot(), projectId)
    {
      StampedHasUniqueStamps(Snapshot(), mint);
      r := Store.FindAllTasks(Snapshot(), projectId);
    }

    /** `findTaskById`. */
    method FindTaskById(projectId: Id, taskId: Id) returns (r: Result<Task>)
      ensures r == Store.FindTaskById(Snapshot(), projectId, taskId)
    {
      if taskId in tasks && tasks[taskId].projectId == projectId {
        r := Ok(tasks[taskId]);
      } else {
        r := Err(Error(NotFound, TaskNotFound));
      }
    }

    /** `updateTaskById`: the compound lookup first, then the patch. */
    method UpdateTaskById(projectId: Id, taskId: Id, patch: TaskPatch) returns (r: Result<Task>)
      requires Valid()
      modifies this
      ensures Valid()
      ensures (Snapshot(), r) == Store.UpdateTaskById(old(Snapshot()), projectId, taskId, patch)
    {
      if !(taskId in tasks && tasks[taskId].projectId == projectId) {
        r := Err(Error(NotFound, TaskNotFound));
        return;
      }
      var task := PatchTask(tasks[taskId], patch);
      tasks := tasks[taskId := task];
      r := Ok(task);
    }

    /** `removeTaskById`: the project's list is filtered and saved before the compound lookup. */
    method RemoveTaskById(projectId: Id, taskId: Id) returns (r: Result<string>)
      requires Valid()
      modifies this
      ensures Valid()
      ensures (Snapshot(), r) == Store.RemoveTaskById(old(Snapshot()), projectId, taskId)
    {
      if projectId !in projects {
        r := Err(Error(NotFound, ProjectNotFound));
        return;
      }
      var p := projects[projectId];
      projects := projects[projectId := p.(tasks := Without(p.tasks, taskId))];
      if !(taskId in tasks && tasks[taskId].projectId == projectId) {
        r := Err(Error(NotFound, TaskNotFound));
        return;
      }
      tasks := tasks - {taskId};
      r := Ok(TaskDeleted);
    }
  }
}
