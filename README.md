# Projects and tasks service, modelled in Dafny

This project models the core of a small NestJS REST backend. Authenticated users
create projects, and each project lists the ids of its tasks. The tasks live in
a separate collection, and each task names its project back through `projectId`.
The model covers `ProjectsService`, which keeps the two collections and the
project's task list in step, and `ProjectsController.create`, which takes the
owner of a new project from the bearer token.

The model is split into these modules:

- **Schemas**: the documents (`Project`, `Task`), the request bodies, the error kinds with their HTTP statuses, and the fixed messages.
- **Ordering**: the "newest first" order that both listing queries use.
- **Store**: the two collections as one value, `Tables`, which holds the projects map, the tasks map and a logical clock. Each service operation is a function from the tables before to the tables after plus the operation's result. New ids come from an injective generator `mint` applied to the clock. The clock also stamps `createdAt`.
- **Properties**: what each operation does to the tables, stated as lemmas. It also proves that every operation keeps the tables `Stamped`: every document is filed under the id minted from its own creation stamp. That is what makes new ids fresh.
- **Consistency**: the aggregate invariant. Every listed id names a task that names the project back, no list repeats an id, and every task is listed by its project. It proves which operations keep the invariant, and which inputs make each of the others break it.
- **Tokens**: `getToken`, the bearer-header parser. It uses JavaScript `split(' ')` semantics, with `Split` and `Join` proved mutually inverse.
- **Service**: the `ProjectsService` class. Its fields are the two maps and the clock, updated in place. Each method is proved to leave the fields exactly as the matching `Store` function says, and to keep them `Stamped`. So every lemma about `Store` holds of the class.
- **Controller**: the routes. `create` runs `getToken`, then token verification, then the owner stamp, then the service. The other routes forward their path parameters in order.

Some things are parameters of the model rather than part of it:

- the id generator `mint`;
- `mongoose.isValidObjectId`, as `isValidObjectId`;
- JWT verification, as `verify`.

Each call into the document store is one step on the tables. The `Promise.all` in `updateById` is modelled as going through the entries in list order.

## Model

| member | source | states |
|---|---|---|
| Schemas.TrimFacts | src/projects/schemas/task.schema.ts:6-10 | the schema's `trim` leaves nothing exactly when the string is all white space (the JavaScript set); what is left starts and ends with other characters; a string without white space at its ends is kept as it is |
| Schemas.TrimIdempotent | src/projects/schemas/task.schema.ts:6-10 | trimming a trimmed value changes nothing |
| Schemas.NewTask | src/projects/schemas/task.schema.ts:6-19 | a task document is built exactly when the body's title is present and not blank once trimmed (the schema requires it); its title is the trimmed title, its status the trimmed status or the default "in_progress"; it is filed under the given projectId, overriding the body's, and stamped now |
| Schemas.Cast | src/projects/schemas/task.schema.ts:6-19 | the trim setters, run on an update query, keep exactly the fields the patch carries |
| Schemas.Overlay | src/projects/projects.service.ts:113-116 | `findByIdAndUpdate` with the entry's other fields overwrites those fields only: the task keeps its project and its creation stamp |
| Schemas.PatchTask | src/projects/projects.service.ts:190-192 | a task patch changes title and status only, each trimmed when given and kept when not; the task keeps its project and its creation stamp |
| Schemas.PatchProject | src/projects/projects.service.ts:124-133 | the project update overwrites every field the body carries, `userId` included (null clears the owner), keeps the others and the creation stamp, and replaces the task list by the given ids |
| Ordering.NewestFirst | src/projects/projects.service.ts:71 | sort by createdAt descending: every id appears, nothing else does, and stamps strictly decrease along the list |
| Store.FindAll | src/projects/projects.service.ts:67-73 | `findAll` lists every stored project exactly once, with its stored document, newest first |
| Store.FindById | src/projects/projects.service.ts:75-87 | a malformed id gives 400 "Please enter correct id." before any lookup; an unknown id gives 404 "Project not found"; otherwise the stored project (success iff the id is well formed and stored) |
| Store.Create | src/projects/projects.service.ts:22-65 | a success returns the stored project under its id; a failure leaves the tasks as they were |
| Store.Writes | src/projects/projects.service.ts:104-118 | one write per entry, in order: an entry with an id is a patch of exactly the task it names; an entry is refused exactly when it has no id and no non-blank title; any other entry is a new task |
| Store.ApplyEntry | src/projects/projects.service.ts:104-118 | one write leaves the projects alone and never moves the clock back |
| Store.Reconcile | src/projects/projects.service.ts:103-119 | going through all writes leaves the projects alone and never moves the clock back |
| Store.Overwrite | src/projects/projects.service.ts:124-133 | `findByIdAndUpdate` of the project gives null iff no project has the id; otherwise the patched project, listing the given ids, replaces the stored one; tasks are untouched |
| Store.UpdateById | src/projects/projects.service.ts:89-134 | a success returns the project (null iff it is absent) as it is stored afterwards; a failure leaves the projects as they were |
| Store.RemoveById | src/projects/projects.service.ts:136-138 | the project is gone afterwards and the tasks are untouched; the deleted project is returned iff it existed |
| Store.CreateTask | src/projects/projects.service.ts:140-159 | a success returns the project as saved, which existed and now lists the new task's id after its old ones; that task is stored |
| Store.UpdateTaskById | src/projects/projects.service.ts:180-193 | succeeds iff the task exists under that project; then only that task changes, to the returned one |
| Store.RemoveTaskById | src/projects/projects.service.ts:195-213 | succeeds iff the project exists and the task is under it; then exactly that task is deleted |
| Store.FindAllTasks | src/projects/projects.service.ts:161-170 | exactly the tasks whose projectId is the given one, newest first, whether or not that project exists; never fails |
| Store.FindTaskById | src/projects/projects.service.ts:172-178 | found iff the task exists and names this project; otherwise 404 "Task not found" |
| Store.Without | src/projects/projects.service.ts:201-203 | the filtered list holds exactly the other ids, is no longer, and equals the input when the id is absent |
| Store.FreshId | src/projects/projects.service.ts:42-50 | an id minted at or after the clock names no stored project or task |
| Store.StampedHasUniqueStamps | src/projects/projects.service.ts:71 | in stamped tables no two projects, and no two tasks, share a creation stamp, so newest-first is a total order |
| Properties.CreateRefusesTakenName | src/projects/projects.service.ts:24-32 | a name already held is refused with 422 "Project with name:… already exists"; nothing changes |
| Properties.CreateWithoutTasks | src/projects/projects.service.ts:34-38 | without inline tasks, the project is stored under a fresh id with the body's fields and an empty list; tasks are unchanged |
| Properties.MintedIdsFresh | src/projects/projects.service.ts:42-51 | the ids handed out for a project and its task batch are new and pairwise distinct |
| Properties.CreateWithTasks | src/projects/projects.service.ts:40-58 | when every inline task has a non-blank title: one new task per input, in order, each under the new project's id with its trimmed title and its trimmed status or the default; the project lists exactly these ids; old tasks are unchanged |
| Properties.CreateWithTasksFails | src/projects/projects.service.ts:53-64 | a batch with a task whose title is missing or blank fails with 500 "Error creating project with tasks: …" after the project is saved; no task is stored, and the project lists one dangling id per input |
| Properties.CreateRefusesBlankTitle | src/projects/projects.service.ts:46-64 | an inline task whose title is empty or only white space makes `create` fail with 500, like a missing title |
| Properties.CreateKeepsStamped | src/projects/projects.service.ts:22-65 | `create` keeps every document filed under the id minted from its stamp |
| Properties.FindByIdAfterCreate | src/projects/projects.service.ts:75-87 | after a successful create, `findById` of the returned id gives back the created project |
| Properties.InsertTasksFacts | src/projects/projects.service.ts:57 | `insertMany` stores the i-th document under the i-th minted id; the keys become the old ones plus these; other tasks are unchanged |
| Properties.InsertTasksStamped | src/projects/projects.service.ts:57 | the batch insert stamps the i-th task first + i, under the id minted from that stamp |
| Properties.NewKeyIsNotOld | src/projects/projects.service.ts:107-110 | a key minted from a stamp at or after the clock is in neither table |
| Properties.StampedIsFresh | src/projects/projects.service.ts:107-110 | stamped tables have no task under any id still to be minted |
| Properties.WriteOfMeaning | src/projects/projects.service.ts:104-118 | an entry patches iff it has a non-empty id, and then patches that task exactly as `PatchTask` with its title and status; an entry without an id inserts the document `NewTask` builds under the project, and is refused exactly when `NewTask` refuses it |
| Properties.ApplyEntryResult | src/projects/projects.service.ts:104-118 | a patch produces its id iff the task exists; an insert produces a fresh id; a refused document produces nothing and changes nothing; no task disappears |
| Properties.ApplyEntryValues | src/projects/projects.service.ts:104-118 | a patch overlays the task's fields; an insert stores a task with the write's title and status under the project, stamped now, under the fresh id; no other task changes |
| Properties.ApplyEntryFrame | src/projects/projects.service.ts:104-118 | one write leaves the projects alone; old tasks keep their project; a created task is under this project and stamped now |
| Properties.ReconcileFrame | src/projects/projects.service.ts:103-119 | all writes in order keep the tables stamped and the projects unchanged; old tasks keep their project; new tasks are under this project |
| Properties.ReconcileKeeps | src/projects/projects.service.ts:103-119 | going through the writes keeps future ids fresh, and keeps every task present |
| Properties.ReconcileFails | src/projects/projects.service.ts:113-121 | a patch of a task that is missing, or a refused document (missing or blank title), makes the batch fail |
| Properties.ReconcileSucceeds | src/projects/projects.service.ts:103-121 | if every patch names an existing task and no document is refused, the batch does not fail |
| Properties.ReconcileIds | src/projects/projects.service.ts:103-121 | on success there is one id per write, each naming a stored task; a patch yields its own id, an insert yields an id not used before |
| Properties.ReconcileDistinct | src/projects/projects.service.ts:103-121 | on success, the id of an insert differs from every earlier write's id |
| Properties.ReconcileCovers | src/projects/projects.service.ts:103-121 | on success, every task the batch created is one of the produced ids |
| Properties.PatchesFor | src/projects/projects.service.ts:113-116 | the patches of one task, applied in list order, keep its project and creation stamp |
| Properties.PatchesForNone | src/projects/projects.service.ts:113-116 | a task no write patches is left as it was |
| Properties.PatchesForOnce | src/projects/projects.service.ts:113-116 | a task exactly one write patches ends up with that write's fields |
| Properties.ReconcileValues | src/projects/projects.service.ts:103-119 | every task present before holds, afterwards, the patches of the writes naming it, in list order |
| Properties.ReconcileNewValues | src/projects/projects.service.ts:105-110 | on success, the task an insert created, and no write patches, holds that insert's title and status under the project |
| Properties.WritesTargets | src/projects/projects.service.ts:98-116 | the ids the writes patch are exactly the ids the entries name, which the prune keeps |
| Properties.UpdateByIdReconciles | src/projects/projects.service.ts:89-134 | with a task list: this project's unnamed tasks are deleted; others keep their project; failure is 500 with projects unchanged; success patches the project (null if absent), owner included, so its list is the produced ids, named entries at their place, new entries as new tasks under it |
| Properties.UpdateByIdTaskValues | src/projects/projects.service.ts:89-134 | with a task list: every task that stays holds the patches of the entries naming it, in list order, and keeps its project; on success each new entry's task holds its trimmed title and its trimmed or default status under the project |
| Properties.UpdateByIdMissingTask | src/projects/projects.service.ts:113-121 | an entry whose id names no task makes `updateById` fail with 500 "Internal server error" |
| Properties.UpdateByIdWithoutTasks | src/projects/projects.service.ts:94-96 | without a task list no task changes and the project's list becomes empty |
| Properties.UpdateByIdNamedList | src/projects/projects.service.ts:94-133 | a list that names only existing tasks succeeds; the project's list becomes exactly those ids in order, all still stored |
| Properties.UpdateByIdIdempotentList | src/projects/projects.service.ts:89-134 | repeating such an update leaves the same task list |
| Properties.UpdateByIdKeepsStamped | src/projects/projects.service.ts:89-134 | `updateById` keeps the tables stamped |
| Properties.RemoveByIdKeepsTasks | src/projects/projects.service.ts:136-138 | `removeById` deletes the project only: the task table is unchanged and `findAllTasks` gives the same list |
| Properties.RemoveByIdKeepsStamped | src/projects/projects.service.ts:136-138 | `removeById` keeps the tables stamped |
| Properties.CreateTaskFacts | src/projects/projects.service.ts:140-159 | an empty projectId gives 400 with nothing changed; a missing or blank title gives 500 with nothing stored; otherwise the task is stored under a fresh id first; a missing project then gives 404, an existing one gets the id appended and is returned |
| Properties.CreateTaskKeepsStamped | src/projects/projects.service.ts:140-159 | `createTask` keeps the tables stamped |
| Properties.ForeignTaskNotFound | src/projects/projects.service.ts:172-210 | a task of another project is not found, updated or deleted through this project's routes |
| Properties.UpdateTaskByIdFacts | src/projects/projects.service.ts:180-193 | only the named task changes: title and status are patched, projects are untouched, and the patched task is returned |
| Properties.UpdateTaskByIdKeepsStamped | src/projects/projects.service.ts:180-193 | `updateTaskById` keeps the tables stamped |
| Properties.WithoutConcat | src/projects/projects.service.ts:201-203 | the filter keeps the others in their order: it distributes over concatenation |
| Properties.RemoveTaskByIdFacts | src/projects/projects.service.ts:195-213 | a missing project gives 404 with nothing changed; otherwise the id leaves the project's list even when the task lookup then fails with 404; on success only that task is deleted |
| Properties.RemoveTaskByIdKeepsStamped | src/projects/projects.service.ts:195-213 | `removeTaskById` keeps the tables stamped |
| Consistency.EmptyIsConsistent | src/projects/projects.service.ts:17-20 | empty tables satisfy the aggregate invariant |
| Consistency.CreateKeepsConsistent | src/projects/projects.service.ts:22-65 | `create` keeps the invariant whenever every inline task has a non-blank title |
| Consistency.CreateTaskKeepsConsistent | src/projects/projects.service.ts:140-159 | `createTask` under an existing project keeps the invariant |
| Consistency.UpdateTaskByIdKeepsConsistent | src/projects/projects.service.ts:180-193 | `updateTaskById` keeps the invariant |
| Consistency.RemoveTaskByIdKeepsConsistent | src/projects/projects.service.ts:195-213 | `removeTaskById` keeps the invariant |
| Consistency.WithoutKeepsUnique | src/projects/projects.service.ts:201-203 | filtering a list without repeats leaves none |
| Consistency.UpdateByIdListExact | src/projects/projects.service.ts:89-134 | with a list naming only the project's own tasks, once each, and giving every new entry a non-blank title: the update succeeds, and a task is under the project iff the new list names it |
| Consistency.UpdateByIdListUnique | src/projects/projects.service.ts:89-134 | with such a list, the project's new list repeats no id |
| Consistency.UpdateByIdKeepsConsistent | src/projects/projects.service.ts:89-134 | with such a list, `updateById` succeeds and keeps the invariant |
| Consistency.CreateFailureBreaksConsistency | src/projects/projects.service.ts:53-64 | a refused task batch leaves a project listing ids of tasks that do not exist |
| Consistency.CreateTaskOrphans | src/projects/projects.service.ts:144-158 | `createTask` with a non-blank title for a missing project fails with 404 and leaves a stored task under no project |
| Consistency.RemoveByIdOrphans | src/projects/projects.service.ts:136-138 | removing a project with tasks leaves those tasks naming a project that is gone |
| Consistency.UpdateByIdWithoutTasksUnlists | src/projects/projects.service.ts:94-133 | an update without a task list unlists the project's tasks, which all stay |
| Consistency.UpdateByIdForeignEntry | src/projects/projects.service.ts:113-121 | an entry naming another project's task lists it here while it still names its own project, so the lists no longer point back |
| Tokens.Split | src/projects/projects.service.ts:219 | `split(' ')` yields at least one part and no part contains the separator |
| Tokens.JoinSplit | src/projects/projects.service.ts:219 | joining the parts with the separator gives back the header |
| Tokens.SplitJoin | src/projects/projects.service.ts:219 | splitting a join of separator-free parts gives back the parts |
| Tokens.GetToken | src/projects/projects.service.ts:214-226 | a missing or empty header gives 401 "Token is required"; any other refused header gives 401 "Invalid token"; a returned token is non-empty and holds no space |
| Tokens.GetTokenSound | src/projects/projects.service.ts:219-225 | a returned token is what follows "Bearer ", up to the end or the next space |
| Tokens.GetTokenComplete | src/projects/projects.service.ts:219-225 | every "Bearer <token>" header, possibly followed by a space and more, gives its token |
| Tokens.GetTokenAccepts | src/projects/projects.service.ts:214-226 | a header gives token v if and only if v is non-empty, has no space, and the header is "Bearer " then v then the end or a space |
| Tokens.GetTokenIgnoresExtraParts | src/projects/projects.service.ts:219 | parts after the second are ignored |
| Service.ProjectsService.constructor | src/projects/projects.service.ts:17-20 | the service starts with empty collections and the given id generator and id check |
| Service.ProjectsService.Create | src/projects/projects.service.ts:22-65 | the fields become what `Store.Create` says and stay stamped |
| Service.ProjectsService.CreateWithTasks | src/projects/projects.service.ts:40-64 | with inline tasks, the project is saved and the clock advanced before the batch is validated; the fields become what `Store.Create` says and stay stamped |
| Service.ProjectsService.InsertMany | src/projects/projects.service.ts:57 | the loop stores the i-th document under mint(first + i); projects and clock untouched |
| Service.ProjectsService.FindAll | src/projects/projects.service.ts:67-73 | the result is `Store.FindAll` of the fields, whose stamps are unique |
| Service.ProjectsService.FindById | src/projects/projects.service.ts:75-87 | the result is `Store.FindById` of the fields |
| Service.ProjectsService.UpdateById | src/projects/projects.service.ts:89-134 | prune, save the entries, then overwrite the project: the fields become what `Store.UpdateById` says, and stay stamped |
| Service.ProjectsService.SaveEntries | src/projects/projects.service.ts:103-119 | the loop saves every entry in list order, going on past a failed one; the fields, the produced ids and the failure flag are what `Store.Reconcile` gives for the entries' writes |
| Service.ProjectsService.SaveEntry | src/projects/projects.service.ts:104-118 | one entry of the list: without an id, a non-blank-titled entry becomes a new task under the project and any other fails; with an id that task is patched, or the entry fails when no such task exists; the fields become what `Store.ApplyEntry` says for the entry's write |
| Service.ProjectsService.RemoveById | src/projects/projects.service.ts:136-138 | the fields become what `Store.RemoveById` says and stay stamped |
| Service.ProjectsService.CreateTask | src/projects/projects.service.ts:140-159 | the fields become what `Store.CreateTask` says and stay stamped |
| Service.ProjectsService.FindAllTasks | src/projects/projects.service.ts:161-170 | the result is `Store.FindAllTasks` of the fields |
| Service.ProjectsService.FindTaskById | src/projects/projects.service.ts:172-178 | the result is `Store.FindTaskById` of the fields |
| Service.ProjectsService.UpdateTaskById | src/projects/projects.service.ts:180-193 | the fields become what `Store.UpdateTaskById` says and stay stamped |
| Service.ProjectsService.RemoveTaskById | src/projects/projects.service.ts:195-213 | the fields become what `Store.RemoveTaskById` says and stay stamped |
| Controller.Authenticate | src/projects/projects.controller.ts:34-39 | a `getToken` failure is passed on; a token that does not verify gives 500; otherwise the verified claims |
| Controller.WithOwner | src/projects/projects.controller.ts:41-44 | the body's userId is replaced by the payload's userId (none when the payload has no such field), and every other field is kept |
| Controller.Create | src/projects/projects.controller.ts:27-45 | a failed authentication fails with 401 or 500 and changes nothing; a created project carries the payload's userId as its owner, and only a header whose token verified gets that far |
| Controller.CreateRejectsBadHeader | src/projects/projects.controller.ts:34-35 | a missing or malformed header fails with 401 whatever the verifier; nothing is created |
| Controller.CreateRejectsUnverifiedToken | src/projects/projects.controller.ts:36-39 | a token that does not verify fails with 500; nothing is created |
| Controller.CreateStampsOwner | src/projects/projects.controller.ts:27-45 | with a verified token the service creates the body with the payload's userId as owner; the body's own userId makes no difference; name, description and status reach the project unchanged |
| Controller.ProjectRoutesForward | src/projects/projects.controller.ts:52-70 | the project routes pass the path's id through: on `:id` they find, patch and delete the project of that id |
| Controller.TaskRoutesForwardInOrder | src/projects/projects.controller.ts:83-107 | the task routes pass the project id first and the task id second, so they find, patch and delete the task of that project |
| Controller.CreateTaskRouteFilesUnderPath | src/projects/projects.controller.ts:72-76 | a task with a non-blank title created on `:id/tasks` is filed under `id` |

## Left out

- Persistence is left out: the MongoDB connection, `populate('tasks')`, `exec()`, the `toJSON` transforms, and the `timestamps` option. Stamps come from a logical clock.
- Timestamp ties are left out. Every document gets its own stamp, so newest-first is a total order; the source leaves ties unordered.
- Asynchrony is left out. Each awaited call is one step, and the `Promise.all` in `updateById` goes through the entries in list order.
- `mongoose.isValidObjectId` and the id generator are left abstract, as `isValidObjectId` and an injective `mint`.
- Cast errors are left out. A malformed id passed to any route other than `findById` is treated as an id that names nothing.
- Store.UpdateById: a named task id that does not exist makes `findByIdAndUpdate` return null, and line 121 then throws a TypeError. This is modelled as a 500 "Internal server error" raised after every entry has run, with the project left untouched.
- Of the task schema, the required title and the `trim` on title and status are modelled; the trim setters also run on task update queries. The status enum is left out, so any trimmed status is stored. The project schema's validators (required fields, trim, the unique index on name) are left out.
- Schemas.Trim: the white space removed is JavaScript's set of white space and line-terminator characters; no other Unicode handling is modelled.
- The DTO decorators and the validation pipe are left out. `@IsEmpty` on `userId` lets an absent or null value through: on create the controller overrides it, and on update a null clears the owner, as modelled.
- Task patches carry only title and status, because the model has no undeclared body fields such as `projectId`.
- The project schema file declares no `tasks` path. The model follows the service code, which reads, writes and saves each project's task list.
- Store.FindAllTasks: the `!tasks` branch (404 "Tasks not found") is not modelled. `find` always returns an array, so the branch is unreachable.
- Store.FindById: the second `findById` at line 86 is folded into the first. The model has no concurrency, so it returns the same document.
- createTask's `project.tasks?.length ? push : assign` is modelled as an append, which gives the same list in both cases.
- JWT verification (secret, signature, expiry) is the abstract `verify`. Its failure is not an HTTP exception, so the framework answers 500.
- Controller.Claims: the payload's `userId` is optional. The login service in src/auth/auth.service.ts:43 signs `{ id }` only, so a token it issued yields no `userId`. A project created with such a token gets no owner. Which payloads `verify` accepts is not part of this model.
- The `AuthGuard()` on the routes and the auth and users modules are not part of this model. Neither are the application bootstrap, Swagger, the rate limiter or the security headers.
- Controller routes other than `create` only forward their arguments. They are modelled over the service's tables rather than over a class instance.
