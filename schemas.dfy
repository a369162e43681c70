/**
 * Documents, request bodies and error kinds of the projects API.
 *
 * A stored document is kept apart from its id: the tables map an `Id` to a
 * `Project` or a `Task`. `createdAt` is the value of the store's logical clock
 * when the document was created; "newest first" orders by it.
 */
module Schemas {

  /** Document ids travel as strings (route parameters, task-id lists). */
  type Id = string

  datatype Option<+T> = None | Some(value: T) {
    function GetOr(default: T): T {
      if Some? then value else default
    }
  }

  /** The HTTP error kinds the service raises. */
  datatype ErrorKind = BadRequest | Unauthorized | NotFound | Unprocessable | Internal {
    function Status(): nat {
      match this
      case BadRequest => 400
      case Unauthorized => 401
      case NotFound => 404
      case Unprocessable => 422
      case Internal => 500
    }
  }

  datatype Error = Error(kind: ErrorKind, message: string)

  datatype Result<+T> = Ok(value: T) | Err(error: Error)

  /** Fixed messages of the service. */
  const ProjectNotFound := "Project not found"
  const TaskNotFound := "Task not found"
  const InvalidObjectId := "Please enter correct id."
  const ProjectIdRequired := "Please enter a projectId"
  const TokenRequired := "Token is required"
  const InvalidToken := "Invalid token"
  const TaskDeleted := "Task deleted successfully"
  /** The document mapper's message when a task's title is missing or blank. */
  const TaskValidationFailed := "Task validation failed: title: Path `title` is required."
  const CreateWithTasksFailed := "Error creating project with tasks: " + TaskValidationFailed
  /** What the web framework answers for an exception that is not an HTTP exception. */
  const InternalServerError := "Internal server error"

  function NameTakenMessage(name: string): string {
    "Project with name:" + name + " already exists"
  }

  /** The task schema's default status. */
  const DefaultTaskStatus := "in_progress"

  datatype Project = Project(
    name: string,
    description: string,
    status: string,
    userId: Option<Id>,
    tasks: seq<Id>,
    createdAt: nat)

  datatype Task = Task(
    title: string,
    status: string,
    projectId: Id,
    createdAt: nat)

  /** A task body to be created: a `CreateTaskDto` or an inline entry of a project body. */
  datatype TaskInput = TaskInput(title: Option<string>, status: Option<string>, projectId: Option<Id>)

  /** `UpdateTaskDto`: the fields a task update may set. */
  datatype TaskPatch = TaskPatch(title: Option<string>, status: Option<string>)

  /** An entry of the task list in a project update: with an id it updates, without one it creates. */
  datatype TaskEntry = TaskEntry(id: Option<Id>, title: Option<string>, status: Option<string>)

  datatype CreateProjectDto = CreateProjectDto(
    name: string,
    description: string,
    status: string,
    userId: Option<Id>,
    tasks: Option<seq<TaskInput>>)

  /**
   * `UpdateProjectDto`. `userId` is None when the body leaves it out, and
   * Some(None) when the body sends null, which clears the owner.
   */
  datatype UpdateProjectDto = UpdateProjectDto(
    name: Option<string>,
    description: Option<string>,
    status: Option<string>,
    userId: Option<Option<Id>>,
    tasks: Option<seq<TaskEntry>>)

  // ------------------------------------------------------------- trimming

  /** The characters JavaScript's `trim` removes: white space and line terminators. */
  predicate IsSpace(c: char) {
    || c == ' ' || c == '\t' || c == '\n' || c == '\r' || c == '\U{000B}' || c == '\U{000C}'
    || c == '\U{00A0}' || c == '\U{1680}' || ('\U{2000}' <= c <= '\U{200A}')
    || c == '\U{2028}' || c == '\U{2029}' || c == '\U{202F}' || c == '\U{205F}'
    || c == '\U{3000}' || c == '\U{FEFF}'
  }

  /** The first index from `i` on that does not hold white space, or `|s|`. */
  function Start(s: string, i: nat): (r: nat)
    requires i <= |s|
    ensures i <= r <= |s|
    decreases |s| - i
  {
    if i < |s| && IsSpace(s[i]) then Start(s, i + 1) else i
  }

  /** The end of `s[lo..j]` once the white space at its back is dropped. */
  function Stop(s: string, lo: nat, j: nat): (r: nat)
    requires lo <= j <= |s|
    ensures lo <= r <= j
    decreases j
  {
    if lo < j && IsSpace(s[j - 1]) then Stop(s, lo, j - 1) else j
  }

  /** The schema's `trim` option: white space is removed at both ends. */
  function Trim(s: string): string {
    var lo := Start(s, 0);
    s[lo..Stop(s, lo, |s|)]
  }

  /** `Start` skips exactly a run of white space. */
  lemma {:induction false} StartFacts(s: string, i: nat)
    requires i <= |s|
    ensures forall k :: i <= k < Start(s, i) ==> IsSpace(s[k])
    ensures Start(s, i) < |s| ==> !IsSpace(s[Start(s, i)])
    decreases |s| - i
  {
    if i < |s| && IsSpace(s[i]) {
      StartFacts(s, i + 1);
    }
  }

  /** `Stop` backs up over exactly a run of white space. */
  lemma {:induction false} StopFacts(s: string, lo: nat, j: nat)
    requires lo <= j <= |s|
    ensures forall k :: Stop(s, lo, j) <= k < j ==> IsSpace(s[k])
    ensures lo < Stop(s, lo, j) ==> !IsSpace(s[Stop(s, lo, j) - 1])
    decreases j
  {
    if lo < j && IsSpace(s[j - 1]) {
      StopFacts(s, lo, j - 1);
    }
  }

  /**
   * Only a blank string trims to nothing; what is left starts and ends with
   * a character that is not white space; a string with no white space at
   * either end is kept as it is.
   */
  lemma TrimFacts(s: string)
    ensures Trim(s) == [] <==> forall i :: 0 <= i < |s| ==> IsSpace(s[i])
    ensures Trim(s) != [] ==> !IsSpace(Trim(s)[0]) && !IsSpace(Trim(s)[|Trim(s)| - 1])
    ensures (s == [] || (!IsSpace(s[0]) && !IsSpace(s[|s| - 1]))) ==> Trim(s) == s
  {
    var lo := Start(s, 0);
    var hi := Stop(s, lo, |s|);
    StartFacts(s, 0);
    StopFacts(s, lo, |s|);
    if lo < hi {
      assert Trim(s)[0] == s[lo];
    }
  }

  /** A trimmed string trims to itself. */
  lemma TrimIdempotent(s: string)
    ensures Trim(Trim(s)) == Trim(s)
  {
    TrimFacts(s);
    TrimFacts(Trim(s));
  }

  /** The task schema's required title: present, and not blank once trimmed. */
  predicate Titled(title: Option<string>) {
    title.Some? && Trim(title.value) != []
  }

  // ------------------------------------------------------------- documents from bodies

  /** A status as the task schema stores it: trimmed, or the default when the body has none. */
  function StatusOf(status: Option<string>): string {
    if status.Some? then Trim(status.value) else DefaultTaskStatus
  }

  /**
   * The task document built from a body, under `projectId` (which overrides any
   * projectId in the body), stamped `stamp`. Title and status are trimmed; a
   * missing status takes the schema's default. The schema requires a title,
   * so a body whose title is missing or blank fails validation (None).
   */
  function NewTask(input: TaskInput, projectId: Id, stamp: nat): (r: Option<Task>)
    ensures r.Some? <==> Titled(input.title)
    ensures r.Some? ==>
      && r.value.title == Trim(input.title.value) && r.value.title != ""
      && r.value.status == StatusOf(input.status)
      && r.value.projectId == projectId && r.value.createdAt == stamp
  {
    if !Titled(input.title) then None
    else Some(Task(Trim(input.title.value), StatusOf(input.status), projectId, stamp))
  }

  /** The fields a patch writes once the schema's `trim` setters have run on an update query. */
  function Cast(patch: TaskPatch): (r: TaskPatch)
    ensures r.title.Some? <==> patch.title.Some?
    ensures r.status.Some? <==> patch.status.Some?
  {
    TaskPatch(if patch.title.Some? then Some(Trim(patch.title.value)) else None,
              if patch.status.Some? then Some(Trim(patch.status.value)) else None)
  }

  /** The fields a cast patch carries overwrite; the others stay. */
  function Overlay(task: Task, fields: TaskPatch): (r: Task)
    ensures r.projectId == task.projectId && r.createdAt == task.createdAt
  {
    task.(title := fields.title.GetOr(task.title), status := fields.status.GetOr(task.status))
  }

  /** A partial update: the fields the patch carries overwrite, trimmed; the others stay. */
  function PatchTask(task: Task, patch: TaskPatch): (r: Task)
    ensures r.projectId == task.projectId && r.createdAt == task.createdAt
    ensures patch.title.None? ==> r.title == task.title
    ensures patch.title.Some? ==> r.title == Trim(patch.title.value)
    ensures patch.status.None? ==> r.status == task.status
    ensures patch.status.Some? ==> r.status == Trim(patch.status.value)
  {
    Overlay(task, Cast(patch))
  }

  /**
   * A project update: every field the body carries overwrites, `userId`
   * included; the others stay; the task list is replaced by `taskIds`.
   */
  function PatchProject(p: Project, dto: UpdateProjectDto, taskIds: seq<Id>): (r: Project)
    ensures r.tasks == taskIds && r.createdAt == p.createdAt
    ensures r.name == (if dto.name.Some? then dto.name.value else p.name)
    ensures r.description == (if dto.description.Some? then dto.description.value else p.description)
    ensures r.status == (if dto.status.Some? then dto.status.value else p.status)
    ensures r.userId == (if dto.userId.Some? then dto.userId.value else p.userId)
  {
    p.(name := dto.name.GetOr(p.name),
       description := dto.description.GetOr(p.description),
       status := dto.status.GetOr(p.status),
       userId := dto.userId.GetOr(p.userId),
       tasks := taskIds)
  }
}
