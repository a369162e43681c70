/**
 * The two tables hold the project/task relation twice: each project lists
 * its task ids, each task names its project. `Consistent` is the idealised
 * agreement of the two. Some operations keep it; the service also breaks it
 * in several ways, proved here as they happen.
 */
module Consistency {
  import opened Schemas
  import opened Store
  import opened Properties

  ghost predicate NoDuplicates(s: seq<Id>) {
    forall i, j :: 0 <= i < j < |s| ==> s[i] != s[j]
  }

  /** Every listed id names a task that names that project back. */
  ghost predicate ListsPointBack(t: Tables) {
    forall p, i :: p in t.projects && 0 <= i < |t.projects[p].tasks| ==>
      t.projects[p].tasks[i] in t.tasks && t.tasks[t.projects[p].tasks[i]].projectId == p
  }

  ghost predicate ListsUnique(t: Tables) {
    forall p :: p in t.projects ==> NoDuplicates(t.projects[p].tasks)
  }

  /** Every task is under a stored project whose list names it. */
  ghost predicate TasksListed(t: Tables) {
    forall k :: k in t.tasks ==> t.tasks[k].projectId in t.projects && k in t.projects[t.tasks[k].projectId].tasks
  }

  ghost predicate Consistent(t: Tables) {
    ListsPointBack(t) && ListsUnique(t) && TasksListed(t)
  }

  lemma EmptyIsConsistent()
    ensures Consistent(Tables(map[], map[], 0))
  {
  }

  // ------------------------------------------------------------- what keeps it

  /** `create` keeps the tables consistent unless its task batch is refused. */
  lemma CreateKeepsConsistent(t: Tables, mint: nat -> Id, dto: CreateProjectDto)
    requires Injective(mint) && Stamped(t, mint) && Consistent(t)
    requires dto.tasks.Some? ==> AllTitled(dto.tasks.value)
    ensures Consistent(Create(t, mint, dto).0)
  {
    if !NameTaken(t.projects, dto.name) {
      FreshId(t, mint, t.clock);
      if dto.tasks.None? || |dto.tasks.value| == 0 {
        CreateWithoutTasks(t, mint, dto);
      } else {
        CreateBatchPointsBack(t, mint, dto);
        CreateBatchUnique(t, mint, dto);
        CreateBatchListed(t, mint, dto);
      }
    }
  }

  lemma CreateBatchPointsBack(t: Tables, mint: nat -> Id, dto: CreateProjectDto)
    requires Injective(mint) && Stamped(t, mint) && ListsPointBack(t)
    requires !NameTaken(t.projects, dto.name)
    requires dto.tasks.Some? && |dto.tasks.value| > 0 && AllTitled(dto.tasks.value)
    ensures ListsPointBack(Create(t, mint, dto).0)
  {
    CreateBatchLinks(t, mint, dto);
    var t' := Create(t, mint, dto).0;
    var id := mint(t.clock);
    forall q, i | q in t'.projects && 0 <= i < |t'.projects[q].tasks|
      ensures t'.projects[q].tasks[i] in t'.tasks && t'.tasks[t'.projects[q].tasks[i]].projectId == q
    {
      if q != id {
        assert t'.projects[q] == t.projects[q];
      }
    }
  }

  lemma CreateBatchUnique(t: Tables, mint: nat -> Id, dto: CreateProjectDto)
    requires Injective(mint) && Stamped(t, mint) && ListsUnique(t)
    requires !NameTaken(t.projects, dto.name)
    requires dto.tasks.Some? && |dto.tasks.value| > 0 && AllTitled(dto.tasks.value)
    ensures ListsUnique(Create(t, mint, dto).0)
  {
    CreateBatchLinks(t, mint, dto);
    var t' := Create(t, mint, dto).0;
    var id := mint(t.clock);
    forall q | q in t'.projects
      ensures NoDuplicates(t'.projects[q].tasks)
    {
      if q != id {
        assert t'.projects[q] == t.projects[q];
      }
    }
  }

  lemma CreateBatchListed(t: Tables, mint: nat -> Id, dto: CreateProjectDto)
    requires Injective(mint) && Stamped(t, mint) && TasksListed(t)
    requires !NameTaken(t.projects, dto.name)
    requires dto.tasks.Some? && |dto.tasks.value| > 0 && AllTitled(dto.tasks.value)
    ensures TasksListed(Create(t, mint, dto).0)
  {
    CreateBatchLinks(t, mint, dto);
    FreshId(t, mint, t.clock);
    var t' := Create(t, mint, dto).0;
    var id := mint(t.clock);
    var p := t'.projects[id];
    forall k | k in t'.tasks
      ensures t'.tasks[k].projectId in t'.projects && k in t'.projects[t'.tasks[k].projectId].tasks
    {
      if k in t.tasks {
        assert t.tasks[k].projectId != id;
      } else {
        var i :| 0 <= i < |p.tasks| && p.tasks[i] == k;
      }
    }
  }

  /** `createTask` under an existing project keeps the tables consistent. */
  lemma CreateTaskKeepsConsistent(t: Tables, mint: nat -> Id, projectId: Id, input: TaskInput)
    requires Injective(mint) && Stamped(t, mint) && Consistent(t)
    requires projectId in t.projects
    ensures Consistent(CreateTask(t, mint, projectId, input).0)
  {
    if projectId != "" && Titled(input.title) {
      CreateTaskPointsBack(t, mint, projectId, input);
      CreateTaskUnique(t, mint, projectId, input);
      CreateTaskListed(t, mint, projectId, input);
    }
  }

  lemma CreateTaskPointsBack(t: Tables, mint: nat -> Id, projectId: Id, input: TaskInput)
    requires Injective(mint) && Stamped(t, mint) && ListsPointBack(t)
    requires projectId in t.projects && projectId != "" && Titled(input.title)
    ensures ListsPointBack(CreateTask(t, mint, projectId, input).0)
  {
    CreateTaskFacts(t, mint, projectId, input);
    var t' := CreateTask(t, mint, projectId, input).0;
    var old_ := t.projects[projectId].tasks;
    assert t'.projects[projectId].tasks == old_ + [mint(t.clock)];
    forall q, i | q in t'.projects && 0 <= i < |t'.projects[q].tasks|
      ensures t'.projects[q].tasks[i] in t'.tasks && t'.tasks[t'.projects[q].tasks[i]].projectId == q
    {
      if q == projectId && i < |old_| {
        assert t'.projects[q].tasks[i] == old_[i];
      }
    }
  }

  lemma CreateTaskUnique(t: Tables, mint: nat -> Id, projectId: Id, input: TaskInput)
    requires Injective(mint) && Stamped(t, mint) && ListsPointBack(t) && ListsUnique(t)
    requires projectId in t.projects && projectId != "" && Titled(input.title)
    ensures ListsUnique(CreateTask(t, mint, projectId, input).0)
  {
    CreateTaskFacts(t, mint, projectId, input);
    var t' := CreateTask(t, mint, projectId, input).0;
    var old_ := t.projects[projectId].tasks;
    var s := t'.projects[projectId].tasks;
    assert s == old_ + [mint(t.clock)];
    forall i, j | 0 <= i < j < |s| ensures s[i] != s[j] {
      assert s[i] == old_[i] && s[i] in t.tasks;
    }
  }

  lemma CreateTaskListed(t: Tables, mint: nat -> Id, projectId: Id, input: TaskInput)
    requires Injective(mint) && Stamped(t, mint) && TasksListed(t)
    requires projectId in t.projects && projectId != "" && Titled(input.title)
    ensures TasksListed(CreateTask(t, mint, projectId, input).0)
  {
    CreateTaskFacts(t, mint, projectId, input);
    var t' := CreateTask(t, mint, projectId, input).0;
    var taskId := mint(t.clock);
    var old_ := t.projects[projectId].tasks;
    assert t'.projects[projectId].tasks == old_ + [taskId];
    forall k | k in t'.tasks
      ensures t'.tasks[k].projectId in t'.projects && k in t'.projects[t'.tasks[k].projectId].tasks
    {
      if k != taskId && t.tasks[k].projectId == projectId {
        assert k in old_;
      }
    }
  }

  /** `updateTaskById` never changes a task's project, so it keeps the tables consistent. */
  lemma UpdateTaskByIdKeepsConsistent(t: Tables, projectId: Id, taskId: Id, patch: TaskPatch)
    requires Consistent(t)
    ensures Consistent(UpdateTaskById(t, projectId, taskId, patch).0)
  {
  }

  /** `removeTaskById` keeps the tables consistent. */
  lemma RemoveTaskByIdKeepsConsistent(t: Tables, projectId: Id, taskId: Id)
    requires Consistent(t)
    ensures Consistent(RemoveTaskById(t, projectId, taskId).0)
  {
    if projectId in t.projects {
      var t' := RemoveTaskById(t, projectId, taskId).0;
      var s := t.projects[projectId].tasks;
      var s' := Without(s, taskId);
      WithoutKeepsUnique(s, taskId);
      assert t'.projects[projectId].tasks == s';
      forall q, i | q in t'.projects && 0 <= i < |t'.projects[q].tasks|
        ensures t'.projects[q].tasks[i] in t'.tasks && t'.tasks[t'.projects[q].tasks[i]].projectId == q
      {
        if q == projectId {
          assert s'[i] in s' && s'[i] in s;
          var j :| 0 <= j < |s| && s[j] == s'[i];
        } else {
          assert t'.projects[q].tasks[i] != taskId || !TaskUnder(t.tasks, projectId, taskId);
        }
      }
    }
  }

  lemma {:induction false} WithoutKeepsUnique(s: seq<Id>, x: Id)
    requires NoDuplicates(s)
    ensures NoDuplicates(Without(s, x))
    decreases |s|
  {
    if s != [] {
      assert NoDuplicates(s[1..]) by {
        forall i, j | 0 <= i < j < |s[1..]| ensures s[1..][i] != s[1..][j] {
          assert s[1..][i] == s[i + 1] && s[1..][j] == s[j + 1];
        }
      }
      WithoutKeepsUnique(s[1..], x);
      assert s[0] !in s[1..];
    }
  }

  /** The list of an update that names only this project's tasks, each at most once, and titles every new entry. */
  ghost predicate OwnEntries(t: Tables, id: Id, entries: seq<TaskEntry>) {
    && (forall i :: 0 <= i < |entries| ==>
          if HasId(entries[i]) then TaskUnder(t.tasks, id, entries[i].id.value) else Titled(entries[i].title))
    && (forall i, j :: 0 <= i < j < |entries| && HasId(entries[i]) && HasId(entries[j]) ==>
          entries[i].id.value != entries[j].id.value)
  }

  /**
   * With such a list, `updateById` succeeds and the project's list becomes
   * exactly the tasks under the project afterwards.
   */
  lemma UpdateByIdListExact(t: Tables, mint: nat -> Id, id: Id, dto: UpdateProjectDto)
    requires Injective(mint) && Stamped(t, mint)
    requires id in t.projects
    requires dto.tasks.Some? && |dto.tasks.value| > 0 && OwnEntries(t, id, dto.tasks.value)
    ensures var (t', r) := UpdateById(t, mint, id, dto);
      && r.Ok? && id in t'.projects
      && (forall k :: k in t'.tasks && t'.tasks[k].projectId == id <==> k in t'.projects[id].tasks)
  {
    var entries := dto.tasks.value;
    var pruned := t.(tasks := Prune(t.tasks, id, Supplied(entries)));
    assert forall i :: 0 <= i < |entries| && HasId(entries[i]) ==> entries[i].id.value in Supplied(entries);
    OwnWrites(pruned, id, entries);
    WritesTargets(entries);
    OwnBatchExact(pruned, mint, id, Writes(entries));
  }

  /** The pruned tables and writes patching exactly the project's remaining tasks: afterwards the list is exact. */
  lemma OwnBatchExact(t: Tables, mint: nat -> Id, id: Id, writes: seq<Write>)
    requires Injective(mint) && Stamped(t, mint)
    requires forall i :: 0 <= i < |writes| ==>
      !writes[i].Refused? && (writes[i].Patch? ==> TaskUnder(t.tasks, id, writes[i].k))
    requires forall k :: TaskUnder(t.tasks, id, k) ==> k in Targets(writes)
    ensures var b := Reconcile(t, mint, id, writes);
      && !b.failed && b.tables.projects == t.projects
      && (forall k :: k in b.tables.tasks && b.tables.tasks[k].projectId == id <==> k in b.ids)
  {
    StampedIsFresh(t, mint);
    ReconcileSucceeds(t, mint, id, writes);
    ReconcileCovers(t, mint, id, writes);
    ReconcileFrame(t, mint, id, writes);
    ReconcileIds(t, mint, id, writes);
    var b := Reconcile(t, mint, id, writes);
    forall k | k in b.tables.tasks && b.tables.tasks[k].projectId == id ensures k in b.ids {
      if k in t.tasks {
        assert TaskUnder(t.tasks, id, k);
        var i :| 0 <= i < |writes| && writes[i].Patch? && writes[i].k == k;
        assert b.ids[i] == k;
      }
    }
    forall k | k in b.ids ensures k in b.tables.tasks && b.tables.tasks[k].projectId == id {
      var i :| 0 <= i < |b.ids| && b.ids[i] == k;
      if writes[i].Patch? {
        assert TaskUnder(t.tasks, id, k);
      }
    }
  }

  /** The writes of such a list patch tasks of the project and insert titled documents, none refused. */
  lemma OwnWrites(t: Tables, id: Id, entries: seq<TaskEntry>)
    requires forall i :: 0 <= i < |entries| ==>
      if HasId(entries[i]) then TaskUnder(t.tasks, id, entries[i].id.value) else Titled(entries[i].title)
    ensures var ws := Writes(entries);
      forall i :: 0 <= i < |ws| ==>
        && (ws[i].Patch? <==> HasId(entries[i]))
        && (ws[i].Patch? ==> ws[i].k == entries[i].id.value && TaskUnder(t.tasks, id, ws[i].k))
        && !ws[i].Refused?
  {
  }

  /** With such a list, the project's new list repeats no id. */
  lemma UpdateByIdListUnique(t: Tables, mint: nat -> Id, id: Id, dto: UpdateProjectDto)
    requires Injective(mint) && Stamped(t, mint)
    requires id in t.projects
    requires dto.tasks.Some? && |dto.tasks.value| > 0 && OwnEntries(t, id, dto.tasks.value)
    ensures var t' := UpdateById(t, mint, id, dto).0;
      id in t'.projects && NoDuplicates(t'.projects[id].tasks)
  {
    var entries := dto.tasks.value;
    var pruned := t.(tasks := Prune(t.tasks, id, Supplied(entries)));
    assert forall i :: 0 <= i < |entries| && HasId(entries[i]) ==> entries[i].id.value in Supplied(entries);
    OwnWrites(pruned, id, entries);
    OwnBatchUnique(pruned, mint, id, Writes(entries));
  }

  /** Writes patching existing tasks once each, and refusing nothing, produce no id twice. */
  lemma OwnBatchUnique(t: Tables, mint: nat -> Id, id: Id, writes: seq<Write>)
    requires Injective(mint) && Stamped(t, mint)
    requires forall i :: 0 <= i < |writes| ==>
      !writes[i].Refused? && (writes[i].Patch? ==> writes[i].k in t.tasks)
    requires forall i, j :: 0 <= i < j < |writes| && writes[i].Patch? && writes[j].Patch? ==>
      writes[i].k != writes[j].k
    ensures var b := Reconcile(t, mint, id, writes);
      && !b.failed && b.tables.projects == t.projects && NoDuplicates(b.ids)
  {
    StampedIsFresh(t, mint);
    ReconcileSucceeds(t, mint, id, writes);
    ReconcileIds(t, mint, id, writes);
    ReconcileDistinct(t, mint, id, writes);
    ReconcileFrame(t, mint, id, writes);
    var b := Reconcile(t, mint, id, writes);
    forall i, j | 0 <= i < j < |b.ids| ensures b.ids[i] != b.ids[j] {
      if writes[i].Patch? && !writes[j].Patch? {
        assert b.ids[i] in t.tasks;
      }
    }
  }

  /**
   * `updateById` keeps the tables consistent when its list names only
   * tasks of this project, each at most once, and every new entry has a
   * title.
   */
  lemma UpdateByIdKeepsConsistent(t: Tables, mint: nat -> Id, id: Id, dto: UpdateProjectDto)
    requires Injective(mint) && Stamped(t, mint) && Consistent(t)
    requires id in t.projects
    requires dto.tasks.Some? && |dto.tasks.value| > 0 && OwnEntries(t, id, dto.tasks.value)
    ensures UpdateById(t, mint, id, dto).1.Ok?
    ensures Consistent(UpdateById(t, mint, id, dto).0)
  {
    UpdateByIdListExact(t, mint, id, dto);
    UpdateByIdPointsBack(t, mint, id, dto);
    UpdateByIdUnique(t, mint, id, dto);
    UpdateByIdListed(t, mint, id, dto);
  }

  lemma UpdateByIdPointsBack(t: Tables, mint: nat -> Id, id: Id, dto: UpdateProjectDto)
    requires Injective(mint) && Stamped(t, mint) && ListsPointBack(t)
    requires id in t.projects
    requires dto.tasks.Some? && |dto.tasks.value| > 0 && OwnEntries(t, id, dto.tasks.value)
    ensures ListsPointBack(UpdateById(t, mint, id, dto).0)
  {
    UpdateByIdListExact(t, mint, id, dto);
    UpdateByIdReconciles(t, mint, id, dto);
    var t' := UpdateById(t, mint, id, dto).0;
    forall q, i | q in t'.projects && 0 <= i < |t'.projects[q].tasks|
      ensures t'.projects[q].tasks[i] in t'.tasks && t'.tasks[t'.projects[q].tasks[i]].projectId == q
    {
      if q != id {
        assert t.projects[q].tasks[i] in t.tasks;
      }
    }
  }

  lemma UpdateByIdUnique(t: Tables, mint: nat -> Id, id: Id, dto: UpdateProjectDto)
    requires Injective(mint) && Stamped(t, mint) && ListsUnique(t)
    requires id in t.projects
    requires dto.tasks.Some? && |dto.tasks.value| > 0 && OwnEntries(t, id, dto.tasks.value)
    ensures ListsUnique(UpdateById(t, mint, id, dto).0)
  {
    UpdateByIdListUnique(t, mint, id, dto);
    UpdateByIdReconciles(t, mint, id, dto);
    var t' := UpdateById(t, mint, id, dto).0;
    forall q | q in t'.projects ensures NoDuplicates(t'.projects[q].tasks) {
      if q != id {
        assert t'.projects[q] == t.projects[q];
      }
    }
  }

  lemma UpdateByIdListed(t: Tables, mint: nat -> Id, id: Id, dto: UpdateProjectDto)
    requires Injective(mint) && Stamped(t, mint) && TasksListed(t)
    requires id in t.projects
    requires dto.tasks.Some? && |dto.tasks.value| > 0 && OwnEntries(t, id, dto.tasks.value)
    ensures TasksListed(UpdateById(t, mint, id, dto).0)
  {
    UpdateByIdListExact(t, mint, id, dto);
    UpdateByIdReconciles(t, mint, id, dto);
    var t' := UpdateById(t, mint, id, dto).0;
    forall k | k in t'.tasks
      ensures t'.tasks[k].projectId in t'.projects && k in t'.projects[t'.tasks[k].projectId].tasks
    {
      if t'.tasks[k].projectId != id {
        assert k in t.tasks;
      }
    }
  }

  // ------------------------------------------------------------- what breaks it

  /** A task batch the schema refuses leaves a project listing ids of tasks that do not exist. */
  lemma CreateFailureBreaksConsistency(t: Tables, mint: nat -> Id, dto: CreateProjectDto)
    requires Injective(mint) && Stamped(t, mint)
    requires !NameTaken(t.projects, dto.name)
    requires dto.tasks.Some? && |dto.tasks.value| > 0 && !AllTitled(dto.tasks.value)
    ensures !ListsPointBack(Create(t, mint, dto).0)
  {
    CreateWithTasksFails(t, mint, dto);
    var t' := Create(t, mint, dto).0;
    assert t'.projects[mint(t.clock)].tasks[0] !in t'.tasks;
  }

  /** `createTask` for a missing project leaves a task whose project does not exist. */
  lemma CreateTaskOrphans(t: Tables, mint: nat -> Id, projectId: Id, input: TaskInput)
    requires Injective(mint) && Stamped(t, mint)
    requires projectId != "" && projectId !in t.projects && Titled(input.title)
    ensures CreateTask(t, mint, projectId, input).1 == Err(Error(NotFound, ProjectNotFound))
    ensures !TasksListed(CreateTask(t, mint, projectId, input).0)
  {
    CreateTaskFacts(t, mint, projectId, input);
    var t' := CreateTask(t, mint, projectId, input).0;
    assert mint(t.clock) in t'.tasks;
  }

  /** `removeById` of a project with tasks leaves those tasks naming a project that is gone. */
  lemma RemoveByIdOrphans(t: Tables, id: Id)
    requires Consistent(t) && id in t.projects && |t.projects[id].tasks| > 0
    ensures !TasksListed(RemoveById(t, id).0)
  {
    var k := t.projects[id].tasks[0];
    assert k in RemoveById(t, id).0.tasks;
  }

  /** `updateById` without a task list empties the list of a project whose tasks all stay. */
  lemma UpdateByIdWithoutTasksUnlists(t: Tables, mint: nat -> Id, id: Id, dto: UpdateProjectDto)
    requires Consistent(t) && id in t.projects && |t.projects[id].tasks| > 0
    requires dto.tasks.None? || dto.tasks.value == []
    ensures !TasksListed(UpdateById(t, mint, id, dto).0)
  {
    UpdateByIdWithoutTasks(t, mint, id, dto);
    var t' := UpdateById(t, mint, id, dto).0;
    var k := t.projects[id].tasks[0];
    assert k in t'.tasks && t'.tasks[k].projectId == id;
  }

  /**
   * An entry naming a task of another project updates that task without
   * moving it: a successful update then lists, under this project, a task
   * that names the other one.
   */
  lemma UpdateByIdForeignEntry(t: Tables, mint: nat -> Id, id: Id, dto: UpdateProjectDto, i: nat)
    requires Injective(mint) && Stamped(t, mint) && id in t.projects
    requires dto.tasks.Some? && i < |dto.tasks.value| && HasId(dto.tasks.value[i])
    requires dto.tasks.value[i].id.value in t.tasks && t.tasks[dto.tasks.value[i].id.value].projectId != id
    requires UpdateById(t, mint, id, dto).1.Ok?
    ensures var t' := UpdateById(t, mint, id, dto).0;
      var k := dto.tasks.value[i].id.value;
      && id in t'.projects && i < |t'.projects[id].tasks| && k in t'.tasks
      && t'.projects[id].tasks[i] == k && t'.tasks[k].projectId == t.tasks[k].projectId
      && !ListsPointBack(t')
  {
    UpdateByIdReconciles(t, mint, id, dto);
  }
}
