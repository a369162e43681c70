/**
 * `ProjectsController`: each route is a straight composition of calls into
 * the service, written here over the service's tables. `create` is where
 * ownership is decided: the header's token is parsed, verified, and its
 * subject overrides any `userId` in the body.
 */
module Controller {
  import opened Schemas
  import opened Store
  import opened Tokens

  /**
   * The payload of a verified token, as the controller reads it. A payload
   * without a `userId` field (the login service signs `{ id }`) reads as None.
   * `iat`, `exp` and `email` mirror the payload type the controller declares;
   * no route reads them.
   */
  datatype Claims = Claims(userId: Option<Id>, iat: int, exp: int, email: string)

  /**
   * The header goes through `getToken` first; its token is then verified by
   * `verify` (JWT verification, left abstract). A failed verification is
   * not an HTTP exception, so the framework answers 500.
   */
  function Authenticate(authorization: Option<string>, verify: string -> Option<Claims>): (r: Result<Claims>)
    ensures GetToken(authorization).Err? ==> r == Err(GetToken(authorization).error)
    ensures r.Ok? ==> GetToken(authorization).Ok? && verify(GetToken(authorization).value) == Some(r.value)
    ensures GetToken(authorization).Ok? && verify(GetToken(authorization).value).None? ==> r == Err(Error(Internal, InternalServerError))
  {
    match GetToken(authorization)
    case Err(e) => Err(e)
    case Ok(token) =>
      match verify(token)
      case None => Err(Error(Internal, InternalServerError))
      case Some(claims) => Ok(claims)
  }

  /**
   * `{ ...createProjectDto, userId: user.userId }`: the later `userId` wins,
   * also when the payload has none, which leaves the project without an owner.
   */
  function WithOwner(dto: CreateProjectDto, claims: Claims): (r: CreateProjectDto)
    ensures r.userId == claims.userId
    ensures r.(userId := dto.userId) == dto
  {
    dto.(userId := claims.userId)
  }

  /** `create`: authenticate, then create the project owned by the token's subject. */
  function Create(t: Tables, mint: nat -> Id, verify: string -> Option<Claims>, authorization: Option<string>, dto: CreateProjectDto): (r: (Tables, Result<(Id, Project)>))
    ensures Authenticate(authorization, verify).Err? ==> r.0 == t && r.1.Err? && r.1.error.kind in {Unauthorized, Internal}
    ensures r.1.Ok? ==>
      && GetToken(authorization).Ok? && verify(GetToken(authorization).value).Some?
      && r.1.value.1.userId == verify(GetToken(authorization).value).value.userId
  {
    match Authenticate(authorization, verify)
    case Err(e) => (t, Err(e))
    case Ok(claims) => Store.Create(t, mint, WithOwner(dto, claims))
  }

  /** A missing or malformed header fails with 401 before the token is verified, and nothing is created. */
  lemma CreateRejectsBadHeader(t: Tables, mint: nat -> Id, verify: string -> Option<Claims>, other: string -> Option<Claims>,
                               authorization: Option<string>, dto: CreateProjectDto)
    requires GetToken(authorization).Err?
    ensures Create(t, mint, verify, authorization, dto) == (t, Err(GetToken(authorization).error))
    ensures Create(t, mint, verify, authorization, dto) == Create(t, mint, other, authorization, dto)
    ensures Create(t, mint, verify, authorization, dto).1.error.kind == Unauthorized
  {
  }

  /** A token that does not verify fails with 500, and nothing is created. */
  lemma CreateRejectsUnverifiedToken(t: Tables, mint: nat -> Id, verify: string -> Option<Claims>, authorization: Option<string>, dto: CreateProjectDto)
    requires GetToken(authorization).Ok? && verify(GetToken(authorization).value).None?
    ensures Create(t, mint, verify, authorization, dto) == (t, Err(Error(Internal, InternalServerError)))
  {
  }

  /**
   * With a verified token the project is created exactly as the service
   * creates the body with `userId` replaced by the token's subject: the
   * `userId` of the body never matters, and every other field reaches the
   * service unchanged.
   */
  lemma CreateStampsOwner(t: Tables, mint: nat -> Id, verify: string -> Option<Claims>, authorization: Option<string>,
                          dto: CreateProjectDto, bodyUserId: Option<Id>)
    requires GetToken(authorization).Ok? && verify(GetToken(authorization).value).Some?
    ensures var claims := verify(GetToken(authorization).value).value;
      && Create(t, mint, verify, authorization, dto) == Store.Create(t, mint, dto.(userId := claims.userId))
      && Create(t, mint, verify, authorization, dto.(userId := bodyUserId)) == Create(t, mint, verify, authorization, dto)
      && (Create(t, mint, verify, authorization, dto).1.Ok? ==>
            var p := Create(t, mint, verify, authorization, dto).1.value.1;
            p.userId == claims.userId && p.name == dto.name && p.description == dto.description && p.status == dto.status)
  {
  }

  // ------------------------------------------------------------- forwarding routes

  function FindByIdRoute(t: Tables, isValidObjectId: Id -> bool, id: Id): Result<Project> {
    FindById(t, isValidObjectId, id)
  }

  function UpdateByIdRoute(t: Tables, mint: nat -> Id, id: Id, dto: UpdateProjectDto): (Tables, Result<Option<Project>>) {
    UpdateById(t, mint, id, dto)
  }

  function RemoveByIdRoute(t: Tables, id: Id): (Tables, Option<Project>) {
    RemoveById(t, id)
  }

  function CreateTaskRoute(t: Tables, mint: nat -> Id, id: Id, dto: TaskInput): (Tables, Result<Project>) {
    CreateTask(t, mint, id, dto)
  }

  function FindTaskByIdRoute(t: Tables, id: Id, taskId: Id): Result<Task> {
    FindTaskById(t, id, taskId)
  }

  function UpdateTaskByIdRoute(t: Tables, id: Id, taskId: Id, dto: TaskPatch): (Tables, Result<Task>) {
    UpdateTaskById(t, id, taskId, dto)
  }

  function RemoveTaskByIdRoute(t: Tables, id: Id, taskId: Id): (Tables, Result<string>) {
    RemoveTaskById(t, id, taskId)
  }

  /**
   * The project routes pass the path's id straight through: on path `:id`
   * the project of `id` is found, patched and deleted, and nothing else is.
   */
  lemma ProjectRoutesForward(t: Tables, mint: nat -> Id, isValidObjectId: Id -> bool, id: Id, dto: UpdateProjectDto)
    requires isValidObjectId(id) && id in t.projects
    ensures FindByIdRoute(t, isValidObjectId, id) == Ok(t.projects[id])
    ensures var (t', r) := UpdateByIdRoute(t, mint, id, dto);
      r.Ok? ==> r.value.Some? && t'.projects == t.projects[id := r.value.value]
    ensures RemoveByIdRoute(t, id) == (t.(projects := t.projects - {id}), Some(t.projects[id]))
  {
    var entries := dto.tasks.GetOr([]);
    if |entries| > 0 {
      var b := Reconcile(t.(tasks := Prune(t.tasks, id, Supplied(entries))), mint, id, Writes(entries));
      assert b.tables.projects == t.projects;
    }
  }

  /**
   * The task routes take the project id first and the task id second: on
   * path `:id/tasks/:taskId` for a task `taskId` of project `id`, they find,
   * patch and delete that task.
   */
  lemma TaskRoutesForwardInOrder(t: Tables, id: Id, taskId: Id, dto: TaskPatch)
    requires id in t.projects && TaskUnder(t.tasks, id, taskId)
    ensures FindTaskByIdRoute(t, id, taskId) == Ok(t.tasks[taskId])
    ensures UpdateTaskByIdRoute(t, id, taskId, dto).0.tasks == t.tasks[taskId := PatchTask(t.tasks[taskId], dto)]
    ensures RemoveTaskByIdRoute(t, id, taskId).1 == Ok(TaskDeleted)
    ensures RemoveTaskByIdRoute(t, id, taskId).0.tasks == t.tasks - {taskId}
  {
  }

  /** The task created on path `:id/tasks` is filed under `id`. */
  lemma CreateTaskRouteFilesUnderPath(t: Tables, mint: nat -> Id, id: Id, dto: TaskInput)
    requires id != "" && Titled(dto.title)
    ensures var t' := CreateTaskRoute(t, mint, id, dto).0;
      mint(t.clock) in t'.tasks && t'.tasks[mint(t.clock)].projectId == id
  {
  }
}
