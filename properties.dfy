/**
 * What each operation of the projects service promises, proved about the
 * functions of `Store`: its error cases, what it stores, and what it leaves
 * alone. Every operation also keeps the tables `Stamped`, so ids minted
 * later stay fresh.
 */
module Properties {
  import opened Schemas
  import opened Ordering
  import opened Store

  // ------------------------------------------------------------- helpers

  /** A document filed under a key minted from a stamp at or past the clock is not an old one. */
  lemma NewKeyIsNotOld(t: Tables, mint: nat -> Id, k: Id, stamp: nat)
    requires Injective(mint) && Stamped(t, mint) && stamp >= t.clock && mint(stamp) == k
    ensures k !in t.projects && k !in t.tasks
  {
    FreshId(t, mint, stamp);
  }

  /** The batch insert of `create`: the i-th document lands under mint(first + i); nothing else changes. */
  lemma InsertTasksFacts(tasks: map<Id, Task>, mint: nat -> Id, first: nat, docs: seq<Task>)
    requires Injective(mint)
    ensures var r := InsertTasks(tasks, mint, first, docs);
      var ids := MintedIds(mint, first, |docs|);
      && (forall i :: 0 <= i < |docs| ==> ids[i] in r && r[ids[i]] == docs[i])
      && (forall k :: k in r <==> k in tasks || k in ids)
      && (forall k :: k in tasks && k !in ids ==> r[k] == tasks[k])
  {
    InsertTasksKeys(tasks, mint, first, docs);
    InsertTasksValues(tasks, mint, first, docs);
  }

  /** The batch insert adds exactly the minted ids and leaves the other tasks as they were. */
  lemma {:induction false} InsertTasksKeys(tasks: map<Id, Task>, mint: nat -> Id, first: nat, docs: seq<Task>)
    ensures var r := InsertTasks(tasks, mint, first, docs);
      var ids := MintedIds(mint, first, |docs|);
      && (forall k :: k in r <==> k in tasks || k in ids)
      && (forall k :: k in tasks && k !in ids ==> r[k] == tasks[k])
    decreases |docs|
  {
    if docs != [] {
      var n := |docs| - 1;
      InsertTasksKeys(tasks, mint, first, docs[..n]);
      assert MintedIds(mint, first, |docs|) == MintedIds(mint, first, n) + [mint(first + n)];
    }
  }

  /** The i-th document is stored under the i-th minted id. */
  lemma {:induction false} InsertTasksValues(tasks: map<Id, Task>, mint: nat -> Id, first: nat, docs: seq<Task>)
    requires Injective(mint)
    ensures var r := InsertTasks(tasks, mint, first, docs);
      var ids := MintedIds(mint, first, |docs|);
      forall i :: 0 <= i < |docs| ==> ids[i] in r && r[ids[i]] == docs[i]
    decreases |docs|
  {
    if docs != [] {
      var n := |docs| - 1;
      var pre := docs[..n];
      InsertTasksValues(tasks, mint, first, pre);
      var ids := MintedIds(mint, first, |docs|);
      var preIds := MintedIds(mint, first, n);
      var r := InsertTasks(tasks, mint, first, docs);
      assert r == InsertTasks(tasks, mint, first, pre)[ids[n] := docs[n]];
      forall i | 0 <= i < n
        ensures ids[i] in r && r[ids[i]] == docs[i]
      {
        assert pre[i] == docs[i] && preIds[i] == ids[i];
        assert ids[i] != ids[n];
      }
    }
  }

  /** Every task was stamped before `bound`, under the id minted from its stamp. */
  ghost predicate StampedBelow(tasks: map<Id, Task>, mint: nat -> Id, bound: nat) {
    forall k :: k in tasks ==> tasks[k].createdAt < bound && mint(tasks[k].createdAt) == k
  }

  /** Documents stamped first, first + 1, ... keep every task stamped below the clock, under the id minted from its stamp. */
  lemma {:induction false} InsertTasksStamped(tasks: map<Id, Task>, mint: nat -> Id, first: nat, docs: seq<Task>)
    requires StampedBelow(tasks, mint, first)
    requires forall i :: 0 <= i < |docs| ==> docs[i].createdAt == first + i
    ensures StampedBelow(InsertTasks(tasks, mint, first, docs), mint, first + |docs|)
    decreases |docs|
  {
    if docs != [] {
      var n := |docs| - 1;
      var pre := docs[..n];
      assert forall i :: 0 <= i < n ==> pre[i] == docs[i];
      InsertTasksStamped(tasks, mint, first, pre);
    }
  }

  // ------------------------------------------------------------- create

  /** A project name already in use is refused with 422 and changes neither table. */
  lemma CreateRefusesTakenName(t: Tables, mint: nat -> Id, dto: CreateProjectDto)
    requires NameTaken(t.projects, dto.name)
    ensures Create(t, mint, dto) == (t, Err(Error(Unprocessable, NameTakenMessage(dto.name))))
    ensures Create(t, mint, dto).1.error.kind.Status() == 422
  {
  }

  /** Without inline tasks, the project is stored with the body's fields, an empty list and a fresh id. */
  lemma CreateWithoutTasks(t: Tables, mint: nat -> Id, dto: CreateProjectDto)
    requires Injective(mint) && Stamped(t, mint)
    requires !NameTaken(t.projects, dto.name)
    requires dto.tasks.None? || dto.tasks.value == []
    ensures var (t', r) := Create(t, mint, dto);
      && r.Ok? && r.value.0 !in t.projects && r.value.0 !in t.tasks
      && r.value.1 == Project(dto.name, dto.description, dto.status, dto.userId, [], t.clock)
      && t'.projects == t.projects[r.value.0 := r.value.1]
      && t'.tasks == t.tasks
  {
    FreshId(t, mint, t.clock);
  }

  /** The ids minted for a batch from the current clock on name no document yet, and differ. */
  lemma MintedIdsFresh(t: Tables, mint: nat -> Id, first: nat, n: nat)
    requires Injective(mint) && Stamped(t, mint) && first >= t.clock
    ensures var ids := MintedIds(mint, first, n);
      && (forall i :: 0 <= i < n ==> ids[i] !in t.projects && ids[i] !in t.tasks)
      && (forall i, j :: 0 <= i < j < n ==> ids[i] != ids[j])
  {
    var ids := MintedIds(mint, first, n);
    forall i | 0 <= i < n ensures ids[i] !in t.projects && ids[i] !in t.tasks {
      FreshId(t, mint, first + i);
    }
  }

  /**
   * With inline tasks, one task per input is stored under the new project,
   * and the project's list is exactly their ids, in input order; the tasks
   * already stored are untouched.
   */
  lemma CreateWithTasks(t: Tables, mint: nat -> Id, dto: CreateProjectDto)
    requires Injective(mint) && Stamped(t, mint)
    requires !NameTaken(t.projects, dto.name)
    requires dto.tasks.Some? && |dto.tasks.value| > 0 && AllTitled(dto.tasks.value)
    ensures var (t', r) := Create(t, mint, dto);
      var inputs := dto.tasks.value;
      && r.Ok?
      && var (id, p) := r.value;
      && id !in t.projects && t'.projects == t.projects[id := p]
      && p.name == dto.name && p.description == dto.description && p.status == dto.status && p.userId == dto.userId
      && |p.tasks| == |inputs|
      && (forall i :: 0 <= i < |inputs| ==>
            && p.tasks[i] !in t.tasks && p.tasks[i] in t'.tasks
            && t'.tasks[p.tasks[i]].projectId == id
            && t'.tasks[p.tasks[i]].title == Trim(inputs[i].title.value)
            && t'.tasks[p.tasks[i]].status == StatusOf(inputs[i].status))
      && (forall i, j :: 0 <= i < j < |inputs| ==> p.tasks[i] != p.tasks[j])
      && (forall k :: k in t'.tasks <==> k in t.tasks || k in p.tasks)
      && (forall k :: k in t.tasks ==> t'.tasks[k] == t.tasks[k])
  {
    var inputs := dto.tasks.value;
    var id := mint(t.clock);
    var first := t.clock + 1;
    var docs := BatchDocs(inputs, id, first);
    var ids := MintedIds(mint, first, |inputs|);
    var tasks' := InsertTasks(t.tasks, mint, first, docs);
    CreateBatchLinks(t, mint, dto);
    CreateBatchShape(t, mint, dto);
    InsertTasksFacts(t.tasks, mint, first, docs);
    forall i | 0 <= i < |inputs|
      ensures tasks'[ids[i]].title == Trim(inputs[i].title.value)
      ensures tasks'[ids[i]].status == StatusOf(inputs[i].status)
    {
      assert tasks'[ids[i]] == docs[i] == NewTask(inputs[i], id, first + i).value;
    }
  }

  /** The id structure of `CreateWithTasks`, without the tasks' fields. */
  lemma CreateBatchLinks(t: Tables, mint: nat -> Id, dto: CreateProjectDto)
    requires Injective(mint) && Stamped(t, mint)
    requires !NameTaken(t.projects, dto.name)
    requires dto.tasks.Some? && |dto.tasks.value| > 0 && AllTitled(dto.tasks.value)
    ensures var (t', r) := Create(t, mint, dto);
      var inputs := dto.tasks.value;
      && r.Ok?
      && var (id, p) := r.value;
      && id !in t.projects && t'.projects == t.projects[id := p]
      && p.name == dto.name && p.description == dto.description && p.status == dto.status && p.userId == dto.userId
      && |p.tasks| == |inputs|
      && (forall i :: 0 <= i < |inputs| ==>
            p.tasks[i] !in t.tasks && p.tasks[i] in t'.tasks && t'.tasks[p.tasks[i]].projectId == id)
      && (forall i, j :: 0 <= i < j < |inputs| ==> p.tasks[i] != p.tasks[j])
      && (forall k :: k in t'.tasks <==> k in t.tasks || k in p.tasks)
      && (forall k :: k in t.tasks ==> t'.tasks[k] == t.tasks[k])
  {
    var inputs := dto.tasks.value;
    var id := mint(t.clock);
    var first := t.clock + 1;
    var docs := BatchDocs(inputs, id, first);
    var ids := MintedIds(mint, first, |inputs|);
    var tasks' := InsertTasks(t.tasks, mint, first, docs);
    CreateBatchShape(t, mint, dto);
    FreshId(t, mint, t.clock);
    InsertTasksFacts(t.tasks, mint, first, docs);
    MintedIdsFresh(t, mint, first, |inputs|);
    forall i | 0 <= i < |inputs| ensures tasks'[ids[i]].projectId == id {
      assert tasks'[ids[i]] == docs[i];
    }
  }

  /** What `Create` computes for a fresh name and a titled, non-empty batch. */
  lemma CreateBatchShape(t: Tables, mint: nat -> Id, dto: CreateProjectDto)
    requires !NameTaken(t.projects, dto.name)
    requires dto.tasks.Some? && |dto.tasks.value| > 0 && AllTitled(dto.tasks.value)
    ensures var inputs := dto.tasks.value;
      var id := mint(t.clock);
      var p := Project(dto.name, dto.description, dto.status, dto.userId, MintedIds(mint, t.clock + 1, |inputs|), t.clock);
      Create(t, mint, dto) == (
        Tables(t.projects[id := p], InsertTasks(t.tasks, mint, t.clock + 1, BatchDocs(inputs, id, t.clock + 1)), t.clock + 1 + |inputs|),
        Ok((id, p)))
  {
  }

  /**
   * A batch the task schema refuses (an input whose title is missing or
   * blank) fails with 500, after the project was saved listing task ids that
   * name no task.
   */
  lemma CreateWithTasksFails(t: Tables, mint: nat -> Id, dto: CreateProjectDto)
    requires Injective(mint) && Stamped(t, mint)
    requires !NameTaken(t.projects, dto.name)
    requires dto.tasks.Some? && |dto.tasks.value| > 0 && !AllTitled(dto.tasks.value)
    ensures var (t', r) := Create(t, mint, dto);
      && r == Err(Error(Internal, CreateWithTasksFailed))
      && t'.tasks == t.tasks
      && mint(t.clock) !in t.projects && mint(t.clock) in t'.projects
      && |t'.projects[mint(t.clock)].tasks| == |dto.tasks.value|
      && (forall i :: 0 <= i < |dto.tasks.value| ==> t'.projects[mint(t.clock)].tasks[i] !in t'.tasks)
  {
    FreshId(t, mint, t.clock);
    MintedIdsFresh(t, mint, t.clock + 1, |dto.tasks.value|);
  }

  /** An inline task whose title is empty or only white space is refused like a missing one. */
  lemma CreateRefusesBlankTitle(t: Tables, mint: nat -> Id, dto: CreateProjectDto, i: nat)
    requires !NameTaken(t.projects, dto.name)
    requires dto.tasks.Some? && i < |dto.tasks.value| && dto.tasks.value[i].title.Some?
    requires forall j :: 0 <= j < |dto.tasks.value[i].title.value| ==> IsSpace(dto.tasks.value[i].title.value[j])
    ensures Create(t, mint, dto).1 == Err(Error(Internal, CreateWithTasksFailed))
  {
    TrimFacts(dto.tasks.value[i].title.value);
    assert !Titled(dto.tasks.value[i].title);
  }

  lemma CreateKeepsStamped(t: Tables, mint: nat -> Id, dto: CreateProjectDto)
    requires Injective(mint) && Stamped(t, mint)
    ensures Stamped(Create(t, mint, dto).0, mint)
  {
    if !NameTaken(t.projects, dto.name) && dto.tasks.Some? && |dto.tasks.value| > 0 && AllTitled(dto.tasks.value) {
      InsertTasksStamped(t.tasks, mint, t.clock + 1, BatchDocs(dto.tasks.value, mint(t.clock), t.clock + 1));
    }
  }

  /** After a successful create, `findById` (for a well-formed id) returns the created project. */
  lemma FindByIdAfterCreate(t: Tables, mint: nat -> Id, isValidObjectId: Id -> bool, dto: CreateProjectDto)
    requires Create(t, mint, dto).1.Ok?
    requires isValidObjectId(Create(t, mint, dto).1.value.0)
    ensures var (t', r) := Create(t, mint, dto);
      FindById(t', isValidObjectId, r.value.0) == Ok(r.value.1)
  {
  }

  // ------------------------------------------------------------- updateById

  /** No id minted from the clock on names a task yet. */
  ghost predicate FreshFrom(t: Tables, mint: nat -> Id) {
    forall n: nat :: n >= t.clock ==> mint(n) !in t.tasks
  }

  lemma StampedIsFresh(t: Tables, mint: nat -> Id)
    requires Injective(mint) && Stamped(t, mint)
    ensures FreshFrom(t, mint)
  {
    forall n: nat | n >= t.clock ensures mint(n) !in t.tasks {
      FreshId(t, mint, n);
    }
  }

  /**
   * What an entry's write means: an entry with an id patches that task as
   * `PatchTask` does; one without builds the document `NewTask` builds, or
   * is refused exactly when `NewTask` refuses it.
   */
  lemma WriteOfMeaning(e: TaskEntry, projectId: Id, stamp: nat)
    ensures var w := WriteOf(e);
      && (w.Patch? <==> HasId(e))
      && (w.Patch? ==> w.k == e.id.value && forall task :: Overlay(task, w.fields) == PatchTask(task, TaskPatch(e.title, e.status)))
      && (w.Refused? <==> !HasId(e) && !Titled(e.title))
      && (!HasId(e) ==>
            NewTask(TaskInput(e.title, e.status, None), projectId, stamp)
              == if w.Insert? then Some(Task(w.title, w.status, projectId, stamp)) else None)
  {
  }

  /** One write: which id it produces, if any; no task disappears. */
  lemma ApplyEntryResult(t: Tables, mint: nat -> Id, projectId: Id, w: Write)
    requires Injective(mint) && FreshFrom(t, mint)
    ensures var (t', r) := ApplyEntry(t, mint, projectId, w);
      && FreshFrom(t', mint)
      && (forall k :: k in t.tasks ==> k in t'.tasks)
      && (forall k :: k in t'.tasks && k !in t.tasks ==> r == Some(k))
      && (r.None? ==> t' == t)
      && (r.Some? ==> r.value in t'.tasks)
      && (w.Patch? ==> (r.Some? <==> w.k in t.tasks) && (r.Some? ==> r.value == w.k))
      && (w.Insert? ==> r.Some? && r.value !in t.tasks)
      && (w.Refused? ==> r.None?)
  {
    assert mint(t.clock) !in t.tasks;
  }

  /**
   * What one write stores: a patch overlays that task's fields, which keeps
   * its project; an insert stores a new task under `projectId`, with the
   * write's title and status, stamped with the clock. No other task changes.
   */
  lemma ApplyEntryValues(t: Tables, mint: nat -> Id, projectId: Id, w: Write)
    requires FreshFrom(t, mint)
    ensures var (t', r) := ApplyEntry(t, mint, projectId, w);
      && (w.Patch? && w.k in t.tasks ==> t'.tasks == t.tasks[w.k := Overlay(t.tasks[w.k], w.fields)])
      && (w.Insert? ==>
            && r == Some(mint(t.clock)) && mint(t.clock) !in t.tasks
            && t'.tasks == t.tasks[mint(t.clock) := Task(w.title, w.status, projectId, t.clock)])
  {
    assert mint(t.clock) !in t.tasks;
  }

  /** One write keeps the tables stamped, the projects as they were, and tasks under their projects. */
  lemma ApplyEntryFrame(t: Tables, mint: nat -> Id, projectId: Id, w: Write)
    requires Injective(mint) && Stamped(t, mint)
    ensures var t' := ApplyEntry(t, mint, projectId, w).0;
      && Stamped(t', mint) && t'.projects == t.projects && t'.clock >= t.clock
      && (forall k :: k in t.tasks ==> k in t'.tasks && t'.tasks[k].projectId == t.tasks[k].projectId)
      && (forall k :: k in t'.tasks && k !in t.tasks ==> t'.tasks[k].projectId == projectId && t'.tasks[k].createdAt >= t.clock)
  {
    FreshId(t, mint, t.clock);
  }

  /**
   * The writes of an update, applied in order, never remove a task nor move
   * one to another project, and only create tasks under `projectId`, stamped
   * from the clock on.
   */
  lemma {:induction false} ReconcileFrame(t: Tables, mint: nat -> Id, projectId: Id, writes: seq<Write>)
    requires Injective(mint) && Stamped(t, mint)
    ensures var b := Reconcile(t, mint, projectId, writes);
      && Stamped(b.tables, mint) && b.tables.projects == t.projects && b.tables.clock >= t.clock
      && (forall k :: k in t.tasks ==> k in b.tables.tasks && b.tables.tasks[k].projectId == t.tasks[k].projectId)
      && (forall k :: k in b.tables.tasks && k !in t.tasks ==> b.tables.tasks[k].projectId == projectId && b.tables.tasks[k].createdAt >= t.clock)
    decreases |writes|
  {
    if writes != [] {
      var pre := writes[..|writes| - 1];
      ReconcileFrame(t, mint, projectId, pre);
      ApplyEntryFrame(Reconcile(t, mint, projectId, pre).tables, mint, projectId, writes[|writes| - 1]);
    }
  }

  /** The writes keep the minted ids fresh and every task in place. */
  lemma {:induction false} ReconcileKeeps(t: Tables, mint: nat -> Id, projectId: Id, writes: seq<Write>)
    requires Injective(mint) && FreshFrom(t, mint)
    ensures var b := Reconcile(t, mint, projectId, writes);
      FreshFrom(b.tables, mint) && forall k :: k in t.tasks ==> k in b.tables.tasks
    decreases |writes|
  {
    if writes != [] {
      var pre := writes[..|writes| - 1];
      ReconcileKeeps(t, mint, projectId, pre);
      ApplyEntryResult(Reconcile(t, mint, projectId, pre).tables, mint, projectId, writes[|writes| - 1]);
    }
  }

  /** A patch of a task that is not there at the end, or a refused document, fails the batch. */
  lemma {:induction false} ReconcileFails(t: Tables, mint: nat -> Id, projectId: Id, writes: seq<Write>)
    ensures var b := Reconcile(t, mint, projectId, writes);
      && (forall i :: 0 <= i < |writes| && writes[i].Patch? && writes[i].k !in b.tables.tasks ==> b.failed)
      && (forall i :: 0 <= i < |writes| && writes[i].Refused? ==> b.failed)
    decreases |writes|
  {
    if writes != [] {
      var n := |writes| - 1;
      var pre := writes[..n];
      var b0 := Reconcile(t, mint, projectId, pre);
      var (t1, r) := ApplyEntry(b0.tables, mint, projectId, writes[n]);
      var b := Reconcile(t, mint, projectId, writes);
      assert b.tables == t1 && (r.None? ==> b.failed) && (b0.failed ==> b.failed);
      assert b0.tables.tasks.Keys <= t1.tasks.Keys;
      ReconcileFails(t, mint, projectId, pre);
      assert forall i :: 0 <= i < n ==> pre[i] == writes[i];
    }
  }

  /** Writes that all patch existing tasks or insert documents never fail the batch. */
  lemma {:induction false} ReconcileSucceeds(t: Tables, mint: nat -> Id, projectId: Id, writes: seq<Write>)
    requires Injective(mint) && FreshFrom(t, mint)
    requires forall i :: 0 <= i < |writes| ==> (writes[i].Patch? ==> writes[i].k in t.tasks) && !writes[i].Refused?
    ensures !Reconcile(t, mint, projectId, writes).failed
    decreases |writes|
  {
    if writes != [] {
      var n := |writes| - 1;
      var pre := writes[..n];
      assert forall i :: 0 <= i < n ==> pre[i] == writes[i];
      ReconcileSucceeds(t, mint, projectId, pre);
      ReconcileKeeps(t, mint, projectId, pre);
      ApplyEntryResult(Reconcile(t, mint, projectId, pre).tables, mint, projectId, writes[n]);
    }
  }

  /**
   * When no write failed, the produced ids line up with the writes: the
   * patched id for a patch, a task that did not exist before for an insert.
   */
  lemma {:induction false} ReconcileIds(t: Tables, mint: nat -> Id, projectId: Id, writes: seq<Write>)
    requires Injective(mint) && FreshFrom(t, mint)
    ensures var b := Reconcile(t, mint, projectId, writes);
      !b.failed ==>
        && |b.ids| == |writes|
        && (forall i :: 0 <= i < |writes| ==> b.ids[i] in b.tables.tasks)
        && (forall i :: 0 <= i < |writes| && writes[i].Patch? ==> b.ids[i] == writes[i].k)
        && (forall i :: 0 <= i < |writes| && !writes[i].Patch? ==> b.ids[i] !in t.tasks)
    decreases |writes|
  {
    var b := Reconcile(t, mint, projectId, writes);
    if writes != [] && !b.failed {
      var n := |writes| - 1;
      var pre := writes[..n];
      var b0 := Reconcile(t, mint, projectId, pre);
      var (t1, r) := ApplyEntry(b0.tables, mint, projectId, writes[n]);
      assert r.Some? && !b0.failed && b.ids == b0.ids + [r.value] && b.tables == t1;
      ReconcileIds(t, mint, projectId, pre);
      ReconcileKeeps(t, mint, projectId, pre);
      ApplyEntryResult(b0.tables, mint, projectId, writes[n]);
      forall i | 0 <= i < |writes|
        ensures b.ids[i] in b.tables.tasks
        ensures writes[i].Patch? ==> b.ids[i] == writes[i].k
        ensures !writes[i].Patch? ==> b.ids[i] !in t.tasks
      {
        if i < n {
          assert pre[i] == writes[i] && b.ids[i] == b0.ids[i];
        }
      }
    }
  }

  /** When no write failed, an insert got an id no earlier write produced. */
  lemma {:induction false} ReconcileDistinct(t: Tables, mint: nat -> Id, projectId: Id, writes: seq<Write>)
    requires Injective(mint) && FreshFrom(t, mint)
    ensures var b := Reconcile(t, mint, projectId, writes);
      !b.failed ==>
        && |b.ids| == |writes|
        && (forall i, j :: 0 <= i < j < |writes| && !writes[j].Patch? ==> b.ids[i] != b.ids[j])
    decreases |writes|
  {
    if writes != [] {
      var n := |writes| - 1;
      var pre := writes[..n];
      var b0 := Reconcile(t, mint, projectId, pre);
      var b := Reconcile(t, mint, projectId, writes);
      if !b.failed {
        ReconcileDistinct(t, mint, projectId, pre);
        ReconcileIds(t, mint, projectId, pre);
        ReconcileKeeps(t, mint, projectId, pre);
        ApplyEntryResult(b0.tables, mint, projectId, writes[n]);
        var r := ApplyEntry(b0.tables, mint, projectId, writes[n]).1;
        assert !b0.failed && r.Some? && b.ids == b0.ids + [r.value];
        forall i, j | 0 <= i < j < |writes| && !writes[j].Patch? ensures b.ids[i] != b.ids[j] {
          if j < n {
            assert pre[j] == writes[j];
          } else {
            assert b.ids[i] == b0.ids[i] && b0.ids[i] in b0.tables.tasks;
          }
        }
      }
    }
  }

  /** When no write failed, every new task is one of the produced ids. */
  lemma {:induction false} ReconcileCovers(t: Tables, mint: nat -> Id, projectId: Id, writes: seq<Write>)
    requires Injective(mint) && FreshFrom(t, mint)
    ensures var b := Reconcile(t, mint, projectId, writes);
      !b.failed ==> forall k :: k in b.tables.tasks && k !in t.tasks ==> k in b.ids
    decreases |writes|
  {
    if writes != [] {
      var n := |writes| - 1;
      var pre := writes[..n];
      var b0 := Reconcile(t, mint, projectId, pre);
      var b := Reconcile(t, mint, projectId, writes);
      if !b.failed {
        ReconcileCovers(t, mint, projectId, pre);
        ReconcileKeeps(t, mint, projectId, pre);
        ApplyEntryResult(b0.tables, mint, projectId, writes[n]);
        var r := ApplyEntry(b0.tables, mint, projectId, writes[n]).1;
        assert !b0.failed && r.Some? && b.ids == b0.ids + [r.value];
      }
    }
  }

  /** A task after the patches of `k` among the writes, applied in list order. */
  function PatchesFor(task: Task, writes: seq<Write>, k: Id): (r: Task)
    ensures r.projectId == task.projectId && r.createdAt == task.createdAt
    decreases |writes|
  {
    if writes == [] then task
    else
      var n := |writes| - 1;
      var before := PatchesFor(task, writes[..n], k);
      if writes[n].Patch? && writes[n].k == k then Overlay(before, writes[n].fields) else before
  }

  /** Writes that do not patch `k` leave its task as it was. */
  lemma {:induction false} PatchesForNone(task: Task, writes: seq<Write>, k: Id)
    requires forall j :: 0 <= j < |writes| ==> !(writes[j].Patch? && writes[j].k == k)
    ensures PatchesFor(task, writes, k) == task
    decreases |writes|
  {
    if writes != [] {
      var n := |writes| - 1;
      assert forall j :: 0 <= j < n ==> writes[..n][j] == writes[j];
      PatchesForNone(task, writes[..n], k);
    }
  }

  /** A task patched by exactly one write ends up with that write's fields. */
  lemma {:induction false} PatchesForOnce(task: Task, writes: seq<Write>, k: Id, i: nat)
    requires i < |writes| && writes[i].Patch? && writes[i].k == k
    requires forall j :: 0 <= j < |writes| && j != i ==> !(writes[j].Patch? && writes[j].k == k)
    ensures PatchesFor(task, writes, k) == Overlay(task, writes[i].fields)
    decreases |writes|
  {
    var n := |writes| - 1;
    assert forall j :: 0 <= j < n ==> writes[..n][j] == writes[j];
    if i == n {
      PatchesForNone(task, writes[..n], k);
    } else {
      PatchesForOnce(task, writes[..n], k, i);
    }
  }

  /** Every task that was there before holds the patches of the writes naming it, in order. */
  lemma {:induction false} ReconcileValues(t: Tables, mint: nat -> Id, projectId: Id, writes: seq<Write>)
    requires Injective(mint) && FreshFrom(t, mint)
    ensures var b := Reconcile(t, mint, projectId, writes);
      forall k :: k in t.tasks ==> k in b.tables.tasks && b.tables.tasks[k] == PatchesFor(t.tasks[k], writes, k)
    decreases |writes|
  {
    if writes != [] {
      var n := |writes| - 1;
      var b0 := Reconcile(t, mint, projectId, writes[..n]);
      ReconcileValues(t, mint, projectId, writes[..n]);
      ReconcileKeeps(t, mint, projectId, writes[..n]);
      ApplyEntryValues(b0.tables, mint, projectId, writes[n]);
      ApplyEntryResult(b0.tables, mint, projectId, writes[n]);
      assert Reconcile(t, mint, projectId, writes).tables == ApplyEntry(b0.tables, mint, projectId, writes[n]).0;
    }
  }

  /** The ids the writes patch. */
  function Targets(writes: seq<Write>): set<Id> {
    set i | 0 <= i < |writes| && writes[i].Patch? :: writes[i].k
  }

  /** The ids a prefix of the writes patches are among those all of them patch; so is the id the last one patches. */
  lemma TargetsPrefix(writes: seq<Write>, n: nat)
    requires n < |writes|
    ensures Targets(writes[..n]) <= Targets(writes)
    ensures writes[n].Patch? ==> writes[n].k in Targets(writes)
  {
    forall k | k in Targets(writes[..n]) ensures k in Targets(writes) {
      var j :| 0 <= j < n && writes[..n][j].Patch? && writes[..n][j].k == k;
      assert writes[j] == writes[..n][j];
    }
  }

  /** The task under `k` is the one insert `w` stores under `projectId`. */
  ghost predicate Inserted(tasks: map<Id, Task>, projectId: Id, k: Id, w: Write) {
    w.Insert? && k in tasks && tasks[k].projectId == projectId && tasks[k].title == w.title && tasks[k].status == w.status
  }

  /**
   * When no write failed, the task an insert created, and that no write
   * patches, holds that insert's title and status under `projectId`.
   */
  lemma {:induction false} ReconcileNewValues(t: Tables, mint: nat -> Id, projectId: Id, writes: seq<Write>)
    requires Injective(mint) && FreshFrom(t, mint)
    ensures var b := Reconcile(t, mint, projectId, writes);
      !b.failed ==>
        && |b.ids| == |writes|
        && forall i :: 0 <= i < |writes| && writes[i].Insert? && b.ids[i] !in Targets(writes) ==>
             Inserted(b.tables.tasks, projectId, b.ids[i], writes[i])
    decreases |writes|
  {
    var b := Reconcile(t, mint, projectId, writes);
    if writes != [] && !b.failed {
      var n := |writes| - 1;
      var pre := writes[..n];
      var w := writes[n];
      var b0 := Reconcile(t, mint, projectId, pre);
      var (t1, r) := ApplyEntry(b0.tables, mint, projectId, w);
      assert r.Some? && !b0.failed && b.ids == b0.ids + [r.value] && b.tables == t1;
      ReconcileNewValues(t, mint, projectId, pre);
      ReconcileKeeps(t, mint, projectId, pre);
      ApplyEntryValues(b0.tables, mint, projectId, w);
      TargetsPrefix(writes, n);
      var k := r.value;
      forall i | 0 <= i < |writes| && writes[i].Insert? && b.ids[i] !in Targets(writes)
        ensures Inserted(b.tables.tasks, projectId, b.ids[i], writes[i])
      {
        if i < n {
          var q := b0.ids[i];
          assert pre[i] == writes[i] && b.ids[i] == q;
          assert Inserted(b0.tables.tasks, projectId, q, pre[i]);
          assert k != q;
        }
      }
    }
  }

  /** The ids a list's writes patch are the ids its entries name. */
  lemma WritesTargets(entries: seq<TaskEntry>)
    ensures Targets(Writes(entries)) == Supplied(entries)
  {
    var ws := Writes(entries);
    forall k | k in Targets(ws) ensures k in Supplied(entries) {
      var i :| 0 <= i < |ws| && ws[i].Patch? && ws[i].k == k;
      assert HasId(entries[i]);
    }
    forall k | k in Supplied(entries) ensures k in Targets(ws) {
      var i :| 0 <= i < |entries| && HasId(entries[i]) && entries[i].id.value == k;
      assert ws[i].Patch? && ws[i].k == k;
    }
  }

  /** The task under `k` is the one an id-less entry creates under `projectId`. */
  ghost predicate NewEntryStored(tasks: map<Id, Task>, projectId: Id, k: Id, e: TaskEntry) {
    && Titled(e.title) && k in tasks
    && tasks[k].projectId == projectId
    && tasks[k].title == Trim(e.title.value)
    && tasks[k].status == StatusOf(e.status)
  }

  /**
   * `updateById` with a non-empty task list: the project's tasks not named
   * by the list are deleted, every other task survives under its project,
   * every new task is under this project; when the project exists and no
   * entry failed, its list becomes the produced ids in entry order (the
   * named id for an entry with one, a new task for an entry without).
   */
  lemma UpdateByIdReconciles(t: Tables, mint: nat -> Id, id: Id, dto: UpdateProjectDto)
    requires Injective(mint) && Stamped(t, mint)
    requires dto.tasks.Some? && |dto.tasks.value| > 0
    ensures var (t', r) := UpdateById(t, mint, id, dto);
      var entries := dto.tasks.value;
      && (forall k :: k in t.tasks && t.tasks[k].projectId == id && k !in Supplied(entries) ==> k !in t'.tasks)
      && (forall k :: k in t.tasks && (t.tasks[k].projectId != id || k in Supplied(entries)) ==>
            k in t'.tasks && t'.tasks[k].projectId == t.tasks[k].projectId)
      && (forall k :: k in t'.tasks && k !in t.tasks ==> t'.tasks[k].projectId == id)
      && t'.projects.Keys == t.projects.Keys
      && (forall q :: q in t.projects && q != id ==> t'.projects[q] == t.projects[q])
      && (r.Err? ==> r.error.kind == Internal && t'.projects == t.projects)
      && (r.Ok? ==> (r.value.Some? <==> id in t.projects))
      && (r.Ok? && id in t.projects ==>
            var p := t'.projects[id];
            && r.value == Some(p)
            && p == PatchProject(t.projects[id], dto, p.tasks)
            && p.userId == (if dto.userId.Some? then dto.userId.value else t.projects[id].userId)
            && |p.tasks| == |entries|
            && (forall i :: 0 <= i < |entries| && HasId(entries[i]) ==> p.tasks[i] == entries[i].id.value)
            && (forall i :: 0 <= i < |entries| && !HasId(entries[i]) ==>
                  p.tasks[i] !in t.tasks && p.tasks[i] in t'.tasks && t'.tasks[p.tasks[i]].projectId == id))
  {
    UpdateByIdTaskFrame(t, mint, id, dto);
    UpdateByIdProjectResult(t, mint, id, dto);
  }

  /** The task half of `UpdateByIdReconciles`. */
  lemma UpdateByIdTaskFrame(t: Tables, mint: nat -> Id, id: Id, dto: UpdateProjectDto)
    requires Injective(mint) && Stamped(t, mint)
    requires dto.tasks.Some? && |dto.tasks.value| > 0
    ensures var t' := UpdateById(t, mint, id, dto).0;
      var entries := dto.tasks.value;
      && (forall k :: k in t.tasks && t.tasks[k].projectId == id && k !in Supplied(entries) ==> k !in t'.tasks)
      && (forall k :: k in t.tasks && (t.tasks[k].projectId != id || k in Supplied(entries)) ==>
            k in t'.tasks && t'.tasks[k].projectId == t.tasks[k].projectId)
      && (forall k :: k in t'.tasks && k !in t.tasks ==> t'.tasks[k].projectId == id)
  {
    var entries := dto.tasks.value;
    var ws := Writes(entries);
    var pruned := t.(tasks := Prune(t.tasks, id, Supplied(entries)));
    ReconcileFrame(pruned, mint, id, ws);
    var b := Reconcile(pruned, mint, id, ws);
    assert UpdateById(t, mint, id, dto).0.tasks == b.tables.tasks;
  }

  /** The project and result half of `UpdateByIdReconciles`. */
  lemma UpdateByIdProjectResult(t: Tables, mint: nat -> Id, id: Id, dto: UpdateProjectDto)
    requires Injective(mint) && Stamped(t, mint)
    requires dto.tasks.Some? && |dto.tasks.value| > 0
    ensures var (t', r) := UpdateById(t, mint, id, dto);
      var entries := dto.tasks.value;
      && t'.projects.Keys == t.projects.Keys
      && (forall q :: q in t.projects && q != id ==> t'.projects[q] == t.projects[q])
      && (r.Err? ==> r.error.kind == Internal && t'.projects == t.projects)
      && (r.Ok? ==> (r.value.Some? <==> id in t.projects))
      && (r.Ok? && id in t.projects ==>
            var p := t'.projects[id];
            && r.value == Some(p)
            && p == PatchProject(t.projects[id], dto, p.tasks)
            && p.userId == (if dto.userId.Some? then dto.userId.value else t.projects[id].userId)
            && |p.tasks| == |entries|
            && (forall i :: 0 <= i < |entries| && HasId(entries[i]) ==> p.tasks[i] == entries[i].id.value)
            && (forall i :: 0 <= i < |entries| && !HasId(entries[i]) ==>
                  p.tasks[i] !in t.tasks && p.tasks[i] in t'.tasks && t'.tasks[p.tasks[i]].projectId == id))
  {
    var entries := dto.tasks.value;
    var ws := Writes(entries);
    var pruned := t.(tasks := Prune(t.tasks, id, Supplied(entries)));
    ReconcileFrame(pruned, mint, id, ws);
    StampedIsFresh(pruned, mint);
    ReconcileIds(pruned, mint, id, ws);
    var b := Reconcile(pruned, mint, id, ws);
    if !b.failed && id in t.projects {
      var p := PatchProject(t.projects[id], dto, b.ids);
      assert UpdateById(t, mint, id, dto) == (b.tables.(projects := t.projects[id := p]), Ok(Some(p)));
      forall i | 0 <= i < |entries| && !HasId(entries[i])
        ensures b.ids[i] !in t.tasks && b.ids[i] in b.tables.tasks && b.tables.tasks[b.ids[i]].projectId == id
      {
        assert !ws[i].Patch?;
        NewKeyIsNotOld(t, mint, b.ids[i], b.tables.tasks[b.ids[i]].createdAt);
      }
    }
  }

  /**
   * What `updateById` with a non-empty list stores in the tasks: every task
   * that stays holds the patches of the entries naming it, in list order
   * (each the `PatchTask` of that entry, by `WriteOfMeaning`), and keeps its
   * project. On success, the task created for an entry without an id (and
   * named by no entry) holds that entry's trimmed title and status, or the
   * default status, under this project.
   */
  lemma UpdateByIdTaskValues(t: Tables, mint: nat -> Id, id: Id, dto: UpdateProjectDto)
    requires Injective(mint) && Stamped(t, mint)
    requires dto.tasks.Some? && |dto.tasks.value| > 0
    ensures var (t', r) := UpdateById(t, mint, id, dto);
      var entries := dto.tasks.value;
      && (forall k :: k in t.tasks && (t.tasks[k].projectId != id || k in Supplied(entries)) ==>
            k in t'.tasks && t'.tasks[k] == PatchesFor(t.tasks[k], Writes(entries), k))
      && (r.Ok? && id in t.projects ==>
            var p := t'.projects[id];
            && |p.tasks| == |entries|
            && forall i :: 0 <= i < |entries| && !HasId(entries[i]) && p.tasks[i] !in Supplied(entries) ==>
                 NewEntryStored(t'.tasks, id, p.tasks[i], entries[i]))
  {
    var entries := dto.tasks.value;
    var ws := Writes(entries);
    var pruned := t.(tasks := Prune(t.tasks, id, Supplied(entries)));
    StampedIsFresh(pruned, mint);
    ReconcileValues(pruned, mint, id, ws);
    ReconcileNewValues(pruned, mint, id, ws);
    ReconcileFails(pruned, mint, id, ws);
    WritesTargets(entries);
    var (t', r) := UpdateById(t, mint, id, dto);
    var b := Reconcile(pruned, mint, id, ws);
    if r.Ok? && id in t.projects {
      assert !b.failed && t' == Overwrite(b.tables, id, dto, b.ids).0;
      forall i | 0 <= i < |entries| && !HasId(entries[i]) && b.ids[i] !in Supplied(entries)
        ensures NewEntryStored(b.tables.tasks, id, b.ids[i], entries[i])
      {
        assert ws[i] == WriteOf(entries[i]);
        assert Inserted(b.tables.tasks, id, b.ids[i], ws[i]);
      }
    }
  }

  /**
   * An entry naming a task that does not exist makes `updateById` fail with 500.
   * The id is required to be missing after the update rather than before it:
   * an earlier entry without an id may create a task under that very id, and
   * then the lookup succeeds.
   */
  lemma UpdateByIdMissingTask(t: Tables, mint: nat -> Id, id: Id, dto: UpdateProjectDto, i: nat)
    requires Injective(mint) && Stamped(t, mint)
    requires dto.tasks.Some? && i < |dto.tasks.value| && HasId(dto.tasks.value[i])
    requires dto.tasks.value[i].id.value !in UpdateById(t, mint, id, dto).0.tasks
    ensures UpdateById(t, mint, id, dto).1 == Err(Error(Internal, InternalServerError))
  {
    var entries := dto.tasks.value;
    var ws := Writes(entries);
    var pruned := t.(tasks := Prune(t.tasks, id, Supplied(entries)));
    ReconcileFails(pruned, mint, id, ws);
    assert ws[i].Patch? && ws[i].k == entries[i].id.value;
  }

  /** Without a task list (or with an empty one) no task changes and the project's list becomes empty. */
  lemma UpdateByIdWithoutTasks(t: Tables, mint: nat -> Id, id: Id, dto: UpdateProjectDto)
    requires dto.tasks.None? || dto.tasks.value == []
    ensures var (t', r) := UpdateById(t, mint, id, dto);
      && t'.tasks == t.tasks && t'.clock == t.clock
      && (id in t.projects ==> r == Ok(Some(PatchProject(t.projects[id], dto, []))) && t'.projects == t.projects[id := r.value.value])
      && (id !in t.projects ==> t' == t && r == Ok(None))
  {
  }

  /**
   * An update whose entries all name existing tasks succeeds, and the
   * project's list becomes exactly those ids, whatever it was before.
   */
  lemma UpdateByIdNamedList(t: Tables, mint: nat -> Id, id: Id, dto: UpdateProjectDto)
    requires Injective(mint) && Stamped(t, mint)
    requires id in t.projects
    requires dto.tasks.Some? && |dto.tasks.value| > 0
    requires forall i :: 0 <= i < |dto.tasks.value| ==> HasId(dto.tasks.value[i]) && dto.tasks.value[i].id.value in t.tasks
    ensures var (t', r) := UpdateById(t, mint, id, dto);
      && r.Ok? && id in t'.projects && t'.projects[id].tasks == IdsOf(dto.tasks.value)
      && (forall i :: 0 <= i < |dto.tasks.value| ==> dto.tasks.value[i].id.value in t'.tasks)
  {
    var entries := dto.tasks.value;
    var pruned := t.(tasks := Prune(t.tasks, id, Supplied(entries)));
    assert forall i :: 0 <= i < |entries| ==> entries[i].id.value in Supplied(entries);
    NamedBatch(pruned, mint, id, entries);
  }

  /** The batch of an update whose entries all name existing tasks: no failure, one named id per entry. */
  lemma NamedBatch(t: Tables, mint: nat -> Id, id: Id, entries: seq<TaskEntry>)
    requires Injective(mint) && Stamped(t, mint)
    requires forall i :: 0 <= i < |entries| ==> HasId(entries[i]) && entries[i].id.value in t.tasks
    ensures var b := Reconcile(t, mint, id, Writes(entries));
      && !b.failed && b.ids == IdsOf(entries) && b.tables.projects == t.projects
      && (forall i :: 0 <= i < |entries| ==> entries[i].id.value in b.tables.tasks)
  {
    var ws := Writes(entries);
    StampedIsFresh(t, mint);
    ReconcileSucceeds(t, mint, id, ws);
    ReconcileFrame(t, mint, id, ws);
    ReconcileIds(t, mint, id, ws);
  }

  /** Reconciling with a list of existing task ids is idempotent: a second identical update leaves the same list. */
  lemma UpdateByIdIdempotentList(t: Tables, mint: nat -> Id, id: Id, dto: UpdateProjectDto)
    requires Injective(mint) && Stamped(t, mint)
    requires id in t.projects
    requires dto.tasks.Some? && |dto.tasks.value| > 0
    requires forall i :: 0 <= i < |dto.tasks.value| ==> HasId(dto.tasks.value[i]) && dto.tasks.value[i].id.value in t.tasks
    ensures var t' := UpdateById(t, mint, id, dto).0;
      var t'' := UpdateById(t', mint, id, dto).0;
      && id in t'.projects && id in t''.projects
      && t''.projects[id].tasks == t'.projects[id].tasks
  {
    UpdateByIdNamedList(t, mint, id, dto);
    var t' := UpdateById(t, mint, id, dto).0;
    UpdateByIdKeepsStamped(t, mint, id, dto);
    UpdateByIdNamedList(t', mint, id, dto);
  }

  /** The ids an update's entries name. */
  function IdsOf(entries: seq<TaskEntry>): seq<Id>
    requires forall i :: 0 <= i < |entries| ==> HasId(entries[i])
  {
    seq(|entries|, i requires 0 <= i < |entries| && HasId(entries[i]) => entries[i].id.value)
  }

  lemma UpdateByIdKeepsStamped(t: Tables, mint: nat -> Id, id: Id, dto: UpdateProjectDto)
    requires Injective(mint) && Stamped(t, mint)
    ensures Stamped(UpdateById(t, mint, id, dto).0, mint)
  {
    var entries := dto.tasks.GetOr([]);
    if |entries| > 0 {
      ReconcileFrame(t.(tasks := Prune(t.tasks, id, Supplied(entries))), mint, id, Writes(entries));
    }
  }

  // ------------------------------------------------------------- removeById

  /** `removeById` deletes only the project: every task stays, and still lists under its projectId. */
  lemma RemoveByIdKeepsTasks(t: Tables, id: Id)
    requires UniqueStamps(t)
    ensures var (t', r) := RemoveById(t, id);
      && t'.projects == t.projects - {id} && t'.tasks == t.tasks
      && (r.Some? <==> id in t.projects) && (r.Some? ==> r.value == t.projects[id])
      && UniqueStamps(t')
      && FindAllTasks(t', id) == FindAllTasks(t, id)
  {
  }

  lemma RemoveByIdKeepsStamped(t: Tables, mint: nat -> Id, id: Id)
    requires Stamped(t, mint)
    ensures Stamped(RemoveById(t, id).0, mint)
  {
  }

  // ------------------------------------------------------------- task routes

  /**
   * `createTask`: an empty projectId is refused with nothing changed;
   * a task whose title is missing or blank fails validation with 500 and
   * nothing stored; otherwise the task is stored under a fresh id with that projectId,
   * whether or not the project exists. A missing project then fails with
   * 404; an existing one gets the new id appended at the end of its list and
   * is returned as saved.
   */
  lemma CreateTaskFacts(t: Tables, mint: nat -> Id, projectId: Id, input: TaskInput)
    requires Injective(mint) && Stamped(t, mint)
    ensures var (t', r) := CreateTask(t, mint, projectId, input);
      && (projectId == "" ==> t' == t && r == Err(Error(BadRequest, ProjectIdRequired)))
      && (projectId != "" && !Titled(input.title) ==> t' == t && r == Err(Error(Internal, InternalServerError)))
      && (projectId != "" && Titled(input.title) ==>
            var taskId := mint(t.clock);
            && taskId !in t.tasks && taskId !in t.projects
            && t'.tasks == t.tasks[taskId := NewTask(input, projectId, t.clock).value]
            && t'.tasks[taskId].projectId == projectId
            && (projectId !in t.projects ==> t'.projects == t.projects && r == Err(Error(NotFound, ProjectNotFound)))
            && (projectId in t.projects ==>
                  && t'.projects == t.projects[projectId := r.value]
                  && r == Ok(t.projects[projectId].(tasks := t.projects[projectId].tasks + [taskId]))))
  {
    FreshId(t, mint, t.clock);
  }

  lemma CreateTaskKeepsStamped(t: Tables, mint: nat -> Id, projectId: Id, input: TaskInput)
    requires Injective(mint) && Stamped(t, mint)
    ensures Stamped(CreateTask(t, mint, projectId, input).0, mint)
  {
  }

  /**
   * A task id that belongs to another project is not found under this one,
   * by `findTaskById`, `updateTaskById` (which changes nothing) and
   * `removeTaskById` (which has already filtered this project's list).
   */
  lemma ForeignTaskNotFound(t: Tables, projectId: Id, other: Id, taskId: Id, patch: TaskPatch)
    requires TaskUnder(t.tasks, other, taskId) && other != projectId
    ensures FindTaskById(t, projectId, taskId) == Err(Error(NotFound, TaskNotFound))
    ensures UpdateTaskById(t, projectId, taskId, patch) == (t, Err(Error(NotFound, TaskNotFound)))
    ensures projectId in t.projects ==>
      var (t', r) := RemoveTaskById(t, projectId, taskId);
      && r == Err(Error(NotFound, TaskNotFound)) && t'.tasks == t.tasks
      && t'.projects == t.projects[projectId := t.projects[projectId].(tasks := Without(t.projects[projectId].tasks, taskId))]
  {
  }

  /** `updateTaskById` on a task of that project changes exactly that task's patched fields. */
  lemma UpdateTaskByIdFacts(t: Tables, projectId: Id, taskId: Id, patch: TaskPatch)
    requires TaskUnder(t.tasks, projectId, taskId)
    ensures var (t', r) := UpdateTaskById(t, projectId, taskId, patch);
      var old_ := t.tasks[taskId];
      && r.Ok? && t'.projects == t.projects && t'.clock == t.clock
      && t'.tasks == t.tasks[taskId := r.value]
      && r.value.projectId == old_.projectId && r.value.createdAt == old_.createdAt
      && r.value.title == (if patch.title.Some? then Trim(patch.title.value) else old_.title)
      && r.value.status == (if patch.status.Some? then Trim(patch.status.value) else old_.status)
  {
  }

  lemma UpdateTaskByIdKeepsStamped(t: Tables, mint: nat -> Id, projectId: Id, taskId: Id, patch: TaskPatch)
    requires Stamped(t, mint)
    ensures Stamped(UpdateTaskById(t, projectId, taskId, patch).0, mint)
  {
  }

  /** Filtering keeps the order of the others: it distributes over concatenation. */
  lemma {:induction false} WithoutConcat(s: seq<Id>, u: seq<Id>, x: Id)
    ensures Without(s + u, x) == Without(s, x) + Without(u, x)
    decreases |s|
  {
    if s != [] {
      assert (s + u)[0] == s[0];
      assert (s + u)[1..] == s[1..] + u;
      WithoutConcat(s[1..], u, x);
      if s[0] == x {
        assert Without(s + u, x) == Without(s[1..] + u, x);
        assert Without(s, x) == Without(s[1..], x);
      } else {
        assert Without(s + u, x) == [s[0]] + Without(s[1..] + u, x);
        assert Without(s, x) == [s[0]] + Without(s[1..], x);
        assert [s[0]] + (Without(s[1..], x) + Without(u, x)) == ([s[0]] + Without(s[1..], x)) + Without(u, x);
      }
    } else {
      assert s + u == u;
    }
  }

  /**
   * `removeTaskById`: a missing project fails with nothing changed.
   * Otherwise every occurrence of the id leaves the project's list, which is
   * saved whatever follows; the task is then deleted if it is under the
   * project, and the call fails with 404 if not.
   */
  lemma RemoveTaskByIdFacts(t: Tables, projectId: Id, taskId: Id)
    ensures var (t', r) := RemoveTaskById(t, projectId, taskId);
      && (projectId !in t.projects ==> t' == t && r == Err(Error(NotFound, ProjectNotFound)))
      && (projectId in t.projects ==>
            && t'.projects.Keys == t.projects.Keys
            && t'.projects[projectId] == t.projects[projectId].(tasks := Without(t.projects[projectId].tasks, taskId))
            && taskId !in t'.projects[projectId].tasks
            && (forall k :: k in t.projects && k != projectId ==> t'.projects[k] == t.projects[k])
            && (TaskUnder(t.tasks, projectId, taskId) ==> r == Ok(TaskDeleted) && t'.tasks == t.tasks - {taskId})
            && (!TaskUnder(t.tasks, projectId, taskId) ==> r == Err(Error(NotFound, TaskNotFound)) && t'.tasks == t.tasks))
  {
  }

  lemma RemoveTaskByIdKeepsStamped(t: Tables, mint: nat -> Id, projectId: Id, taskId: Id)
    requires Stamped(t, mint)
    ensures Stamped(RemoveTaskById(t, projectId, taskId).0, mint)
  {
  }
}
