# Projects and Tasks service — a Dafny model

This project models the core of a small project-management service. It has two parts:
- an Express server that stores **Projects**, each owning **Tasks**, behind an authentication layer;
- a Next.js web client that talks to the server.

The model covers:

- **The two services** (`ProjectService`, `TaskService`).
  - Filtered, newest-first and paginated listing: `page || 1`, `limit || 10`, `skip = (page - 1) * limit`, `totalPages = Math.ceil(total / limit)`. A negative `skip` makes the database throw; a negative limit becomes a negative `take`, which serves rows counted back from the end of the list.
  - Lookup by id, with "Project not found" / "Task not found".
  - Create, partial update and delete against a shared database (`Store.Database`).
  - Deleting a project is assumed to delete its tasks (a database-level cascade that is not part of this model).
- **The request schemas** of both resources (`ProjectDto`, `TaskDto`, built on `Schema`).
  - Length limits counted in UTF-16 units.
  - Optional and nullable fields.
  - The `TaskStatus` enum.
  - The `page`/`limit` transform through `parseInt`.
- **The reply envelopes** (`ApiResponse`). Every reply is `{ message, data, pagination? }` or `{ message, error, details? }`.
- **The controllers** (`ProjectController`, `TaskController`). They map `req.user`, and what the service returned or threw, to 200/201/401/404/500.
- **The middleware.**
  - `requireAuth`: session, user lookup and the ban with its expiry.
  - `requireRole`: comma-separated, trimmed roles, defaulting to "user".
  - The four validators: `validate`, `validateBody`, `validateQuery` and `validateParams`.
- **The OpenAPI merger.**
  - Maps are merged with the auth document winning collisions.
  - Tags and servers are de-duplicated, keeping the first with each name or url.
- **The web client.**
  - Form schemas, compared field by field with the server's.
  - Error-message extraction.
  - The API address configuration.
  - The query-key factories and which cache entries each mutation invalidates (`QueryKeys.QueryCache`).

Two behaviours of the code worth knowing:
- A banned user with no expiry is answered 403 ("You have been banned from this application").
- The create schema refuses a null description. Only the update schema and the web form accept one.

## Model

| member | source | states |
|---|---|---|
| Domain.ParseStatus | apps/server/src/features/task/task.dto.ts:11 | Only the three enum values are accepted, each giving back the member it names |
| Domain.StatusRoundTrip | apps/web/lib/validations/task.schema.ts:3-7 | Parsing a member's value gives the member back; no value is empty |
| Domain.StatusNamesDistinct | apps/web/lib/validations/task.schema.ts:3-7 | The enum has exactly three members and no two share a value |
| Query.Filter | apps/server/src/features/project/project.service.ts:26-28 | `where` keeps exactly the accepted rows, as a sub-multiset of the table |
| Query.FilterKeepsDistinct | apps/server/src/features/project/project.service.ts:26-28 | Filtering a table without repeated rows yields no repeated rows |
| Query.DistinctIffPairwise | apps/server/src/features/project/project.service.ts:26-42 | "No row occurs twice" is the same as "no two positions hold the same row" |
| Query.InsertNewest | apps/server/src/features/project/project.service.ts:36-38 | Inserting into a newest-first list keeps it newest first and adds exactly that row |
| Query.SortNewest | apps/server/src/features/project/project.service.ts:36-38 | `orderBy: { createdAt: "desc" }`: the result is newest first and a permutation of the input |
| Query.SortedMembers | apps/server/src/features/task/task.service.ts:46-48 | Sorting keeps exactly the same rows, and keeps them distinct |
| Query.ConsNewest | apps/server/src/features/task/task.service.ts:46-48 | A row at least as new as the head of a newest-first list can go in front |
| Store.RowsOf | apps/server/src/features/task/task.service.ts:34-35 | A table scan lists, position by position, the row stored under each id |
| Store.ScanContents | apps/server/src/features/task/task.service.ts:34-35 | A scan holds every stored row once and nothing else |
| Store.EnumeratesAppend | apps/server/src/features/project/project.service.ts:76-84 | Appending a fresh id keeps the row order a duplicate-free listing of the table |
| Store.EnumeratesKeep | apps/server/src/features/project/project.service.ts:129-131 | Deleting rows keeps the row order a duplicate-free listing of what remains |
| Store.NoTasksOf | apps/server/src/features/project/project.service.ts:75-87 | A project that no task points at has no tasks, so a new project comes back with an empty list |
| Store.Database.constructor | apps/server/src/features/project/project.service.ts:11 | The empty database is valid |
| Store.Database.ProjectScan | apps/server/src/features/project/project.service.ts:27-28 | A project scan holds exactly the stored projects, each once |
| Store.Database.TaskScan | apps/server/src/features/task/task.service.ts:34-35 | A task scan holds exactly the stored tasks, each once |
| Store.Database.TasksOf | apps/server/src/features/project/project.service.ts:29-35 | A project's `tasks` include: exactly its stored tasks, newest first, none twice |
| Pagination.ParseInt | apps/server/src/features/project/project.dto.ts:44 | `parseInt(val, 10)`: an empty or all-blank string gives NaN, and a negative result needs a leading minus sign |
| Pagination.DigitPrefix | apps/server/src/features/project/project.dto.ts:44 | The longest run of leading digits, and the character after it is not a digit |
| Pagination.QueryTransform | apps/server/src/features/project/project.dto.ts:41-48 | `val ? parseInt(val, 10) : undefined`: undefined exactly for a missing or empty string |
| Pagination.ParseIntOfDecimal | apps/server/src/features/project/project.dto.ts:44 | `parseInt` reads back the decimal rendering of every natural number |
| Pagination.ParseIntOfNegativeDecimal | apps/server/src/features/project/project.dto.ts:48 | `parseInt` reads back "-n" as the negative number |
| Pagination.ParseIntOfNonNumeric | apps/server/src/features/project/project.dto.ts:44 | A string that starts with no space, sign or digit gives NaN |
| Pagination.DigitPrefixOfDigits | apps/server/src/features/project/project.dto.ts:44 | A string of digits is its own digit prefix |
| Pagination.WindowOf | apps/server/src/features/project/project.service.ts:22-24 | Page and limit are never 0 after `||`, and skip is `(page - 1) * limit` |
| Pagination.WindowDefaults | apps/server/src/features/task/task.service.ts:29-31 | Undefined, NaN or 0 fall back to page 1 and limit 10; any other value is used as given; with no page, skip is 0 |
| Pagination.CeilDiv | apps/server/src/features/project/project.service.ts:51 | The rounded-up quotient is zero exactly for zero rows and never exceeds the row count |
| Pagination.CeilDivIsCeiling | apps/server/src/features/project/project.service.ts:51 | `totalPages` is the least number of `limit`-sized pages that hold `total` rows |
| Pagination.TotalPages | apps/server/src/features/project/project.service.ts:51 | `Math.ceil(total / limit)`: the page count for a positive limit, and at most zero for a negative one |
| Pagination.TotalPagesIsCeiling | apps/server/src/features/project/project.service.ts:51 | The result is the ceiling of the quotient for either sign of the limit: `q * limit` reaches `total` and `(q - 1) * limit` does not |
| Pagination.Meta | apps/server/src/features/project/project.service.ts:47-52 | The pagination block echoes page and limit, reports the total, and has `totalPages` as above |
| Pagination.PageOf | apps/server/src/features/project/project.service.ts:39-40 | `skip`/`take`: at most `take` rows, exactly the rows from position `skip` on |
| Pagination.PageOfSize | apps/server/src/features/project/project.service.ts:39-40 | A page is full unless the rows run out |
| Pagination.ServedCount | apps/server/src/features/project/project.service.ts:39-40 | At most `|take|` rows are served, and fewer only when the rows run out |
| Pagination.ServedStart | apps/server/src/features/project/project.service.ts:39-40 | A non-negative `take` starts at `skip`; a negative one ends `skip` rows before the end; a served run stays inside the list |
| Pagination.Served | apps/server/src/features/project/project.service.ts:39-40 | `findMany({ skip, take })` for either sign of `take`: exactly `ServedCount` consecutive rows from `ServedStart` |
| Pagination.ServedIsFindMany | apps/server/src/features/project/project.service.ts:39-40 | A non-negative `take` serves the plain page; a negative one serves the page taken from the reversed list, turned back |
| Pagination.NegativeTakeEndsAtLastRow | apps/server/src/features/project/project.service.ts:39-40 | With `skip` 0 and a negative `take`, the page is non-empty and ends with the last row |
| Pagination.NegativeLimitOutrunsTotalPages | apps/server/src/features/project/project.service.ts:39-51 | Seven rows with limit -5: `totalPages` is -1 while page 1 serves five rows |
| Pagination.PageBeyondLastIsEmpty | apps/server/src/features/project/project.service.ts:47-52 | A page number above `totalPages` serves nothing |
| Pagination.PageOfRowIsCounted | apps/server/src/features/project/project.service.ts:51 | The page holding row `i` lies within `1..totalPages` |
| Pagination.RowOnItsPage | apps/server/src/features/project/project.service.ts:22-41 | Row `i` is item `i % limit` of the page that skips `(i / limit) * limit` rows |
| Pagination.WindowServingRow | apps/server/src/features/task/task.service.ts:29-51 | Asking for page `i / limit + 1` gives a window within `totalPages` that serves row `i` as its item `i % limit` |
| ProjectDto.CreateProjectSchema | apps/server/src/features/project/project.dto.ts:5-16 | Accepts exactly a 1–200-unit name and a missing or ≤1000-unit description (not `null`); carries both values over; a refusal lists at least one issue |
| ProjectDto.UpdateProjectSchema | apps/server/src/features/project/project.dto.ts:21-34 | Every field optional; the description may be `null`; missing, `null` and given map to Omitted, ToNull and Given |
| ProjectDto.QueryProjectsSchema | apps/server/src/features/project/project.dto.ts:39-51 | Accepts exactly when page, limit and name are missing or strings; page and limit go through the transform |
| ProjectDto.CreateProjectIssuesInOrder | apps/server/src/features/project/project.dto.ts:5-16 | An empty name with a `null` description raises "Name is required" and then the type error, with their paths |
| TaskDto.CreateTaskSchema | apps/server/src/features/task/task.dto.ts:4-13 | Accepts exactly a non-empty project id, a 1–200-unit title and a valid or missing status; status defaults to OPEN |
| TaskDto.UpdateTaskSchema | apps/server/src/features/task/task.dto.ts:17-26 | Accepts exactly an optional valid title and an optional valid status, and reads them back |
| TaskDto.QueryTasksSchema | apps/server/src/features/task/task.dto.ts:30-44 | Accepts exactly string-or-missing page/limit/projectId/title and a valid-or-missing status; values carried over |
| TaskDto.UpdateIgnoresProjectId | apps/server/src/features/task/task.dto.ts:17-26 | A `projectId` in an update body changes nothing: a task cannot be moved |
| Schema.StringIssues | apps/server/src/features/project/project.dto.ts:7-14 | A string rule raises no issue exactly for an allowed missing/null value or a string within its length bounds |
| Schema.StatusIssues | apps/server/src/features/task/task.dto.ts:11 | No issue exactly for an allowed missing value or one of the three names, else one: a string or number not in the enum gets "Invalid enum value. Expected … received '<value>'", any other type "Expected …, received <type>" |
| ProjectService.SelectedIff | apps/server/src/features/project/project.service.ts:15-20 | A missing or empty name selects every project; otherwise the lowered filter must occur in the lowered name |
| ProjectService.Matching | apps/server/src/features/project/project.service.ts:15-20 | Exactly the stored projects whose name contains the truthy filter (case-insensitive), newest first, none twice |
| ProjectService.WithTasks | apps/server/src/features/project/project.service.ts:59-65 | The project with exactly its own tasks, newest first |
| ProjectService.AllWithTasks | apps/server/src/features/project/project.service.ts:29-35 | Every project of the page with its tasks, in page order |
| ProjectService.FindAll | apps/server/src/features/project/project.service.ts:12-54 | Fails exactly on a negative skip (a database error, never "not found"); a negative limit goes through as a negative `take`; pagination echoes page and limit, counts every match, and has `totalPages = Math.ceil(total / limit)` |
| ProjectService.PageRows | apps/server/src/features/project/project.service.ts:26-43 | Adding tasks to the served rows gives a page whose item `i` is the row at `ServedStart + i` with its tasks |
| ProjectService.FindAllServesSlice | apps/server/src/features/project/project.service.ts:26-43 | The projects served are the `ServedCount` newest-first matches from `ServedStart` on, each with its tasks: positions `skip ..` for a positive limit, the `-limit` rows ending `skip` before the end for a negative one |
| ProjectService.FindAllPageSize | apps/server/src/features/project/project.service.ts:39-40 | At most `|limit|` projects, and fewer only when the matches run out |
| ProjectService.EmptyBeyondLast | apps/server/src/features/project/project.service.ts:45-52 | A response for a positive limit whose page is above its `totalPages` lists no projects |
| ProjectService.PageBeyondLastHasNoProjects | apps/server/src/features/project/project.service.ts:47-52 | With a positive limit, a page above `totalPages` has no projects |
| ProjectService.EveryMatchIsServed | apps/server/src/features/project/project.service.ts:22-52 | Every matching project is served on page `i / limit + 1`, which succeeds and is within `totalPages` |
| ProjectService.ListServesRow | apps/server/src/features/project/project.service.ts:22-52 | A response serving the window of row `i`'s page counts that page and holds the row |
| ProjectService.ServedOnPage | apps/server/src/features/project/project.service.ts:39-40 | Item `k` of a served page is the row at `ServedStart + k`, with its tasks |
| ProjectService.FindOne | apps/server/src/features/project/project.service.ts:56-73 | "Project not found" exactly for a missing id, else the project with its tasks |
| ProjectService.Create | apps/server/src/features/project/project.service.ts:75-87 | Adds the project under the fresh id with `description ?? null` and no tasks; nothing else changes |
| ProjectService.Patched | apps/server/src/features/project/project.service.ts:98-103 | Name replaced only when given; description kept if omitted, cleared by `null`, replaced if given; id and creation time kept |
| ProjectService.PatchedIdempotent | apps/server/src/features/project/project.service.ts:98-107 | Applying the same update twice equals applying it once |
| ProjectService.EmptyPatchIsIdentity | apps/server/src/features/project/project.service.ts:98-103 | An update that gives nothing changes nothing |
| ProjectService.Update | apps/server/src/features/project/project.service.ts:89-118 | A missing id throws "Project not found" and changes nothing; otherwise only that project becomes its patched self |
| ProjectService.TasksWithout | apps/server/src/features/project/project.service.ts:129-131 | The task table minus exactly the deleted project's tasks; the other tasks are unchanged |
| ProjectService.Delete | apps/server/src/features/project/project.service.ts:120-132 | A missing id throws and changes nothing; otherwise the project and exactly its tasks go, and the database stays valid |
| TaskService.WhereOf | apps/server/src/features/task/task.service.ts:12-27 | The project-id and title filters are set exactly when the query value is truthy, and then equal it; the status is copied |
| TaskService.Accepts | apps/server/src/features/task/task.service.ts:12-27 | An empty `where` accepts every task |
| TaskService.WhereIsConjunctive | apps/server/src/features/task/task.service.ts:12-27 | A task matches exactly when it meets every truthy filter (project id, status, title case-insensitive) |
| TaskService.Matching | apps/server/src/features/task/task.service.ts:33-48 | Exactly the stored tasks the `where` accepts, newest first, none twice, each with an existing project |
| TaskService.WithProject | apps/server/src/features/task/task.service.ts:36-45 | The task with its own project |
| TaskService.AllWithProject | apps/server/src/features/task/task.service.ts:34-45 | Every task of the page with its project, in page order |
| TaskService.FindAll | apps/server/src/features/task/task.service.ts:11-64 | Fails exactly on a negative skip (never a "not found" message); a negative limit goes through as a negative `take`; pagination echoes page and limit, counts every match, and has `totalPages = Math.ceil(total / limit)` |
| TaskService.PageRows | apps/server/src/features/task/task.service.ts:33-53 | Adding projects to the served rows gives a page whose item `i` is the row at `ServedStart + i` with its project |
| TaskService.FindAllServesSlice | apps/server/src/features/task/task.service.ts:33-53 | The tasks served are the `ServedCount` newest-first matches from `ServedStart` on, each with its project: positions `skip ..` for a positive limit, the `-limit` rows ending `skip` before the end for a negative one |
| TaskService.FindAllPageSize | apps/server/src/features/task/task.service.ts:49-50 | At most `|limit|` tasks, and fewer only when the matches run out |
| TaskService.EmptyBeyondLast | apps/server/src/features/task/task.service.ts:55-63 | A response for a positive limit whose page is above its `totalPages` lists no tasks |
| TaskService.PageBeyondLastHasNoTasks | apps/server/src/features/task/task.service.ts:55-63 | With a positive limit, a page above `totalPages` has no tasks |
| TaskService.FindOne | apps/server/src/features/task/task.service.ts:66-86 | "Task not found" exactly for a missing id, else the task with its project |
| TaskService.Create | apps/server/src/features/task/task.service.ts:88-117 | A missing project throws "Project not found" and changes nothing; otherwise adds the task with `status \|\| "OPEN"` and both timestamps now |
| TaskService.Revised | apps/server/src/features/task/task.service.ts:128-130 | Title and status replaced only when given; id, project and creation time kept; `updatedAt` is now |
| TaskService.RevisedIdempotent | apps/server/src/features/task/task.service.ts:128-134 | Applying the same update twice at the same time equals applying it once |
| TaskService.Update | apps/server/src/features/task/task.service.ts:119-148 | A missing id throws "Task not found" and changes nothing; otherwise only that task becomes its revised self |
| TaskService.Delete | apps/server/src/features/task/task.service.ts:150-162 | A missing id throws and changes nothing; otherwise exactly that task goes |
| ApiResponse.SuccessReply | apps/server/src/lib/response.ts:26-43 | The given status, message and data, with `pagination` present exactly when passed |
| ApiResponse.ErrorReply | apps/server/src/lib/response.ts:45-62 | The given status, message and error, with `details` present exactly when given and non-empty |
| ApiResponse.Created | apps/server/src/lib/response.ts:64-70 | A success reply with status 201 |
| ApiResponse.NotFound | apps/server/src/lib/response.ts:72-78 | Status 404 with the given error, and no details |
| ApiResponse.Unauthorized | apps/server/src/lib/response.ts:80-86 | Status 401 with the given error, and no details |
| ApiResponse.Forbidden | apps/server/src/lib/response.ts:88-94 | Status 403 with the given error, and no details |
| ApiResponse.BadRequest | apps/server/src/lib/response.ts:96-103 | An error reply with status 400, details forwarded |
| ApiResponse.InternalServerError | apps/server/src/lib/response.ts:105-111 | Status 500 with the generic error, and no details |
| ApiResponse.CannedRepliesConsistent | apps/server/src/lib/response.ts:72-111 | Every canned error reply pairs an error envelope with a status of 400 or above; `details` is never an empty list |
| ProjectController.FindAllReply | apps/server/src/features/project/project.controller.ts:13-29 | 200 with projects and pagination exactly on success, 500 exactly on failure |
| ProjectController.FindOneReply | apps/server/src/features/project/project.controller.ts:31-48 | 200 on success, 404 exactly for an `Error` "Project not found", 500 for anything else |
| ProjectController.CreateReply | apps/server/src/features/project/project.controller.ts:50-64 | 401 exactly without a user, 201 on success, 500 on every failure (no 404 branch) |
| ProjectController.UpdateReply | apps/server/src/features/project/project.controller.ts:66-87 | 401 without a user, 200 on success, 404 exactly for "Project not found", else 500 |
| ProjectController.DeleteReply | apps/server/src/features/project/project.controller.ts:89-113 | 401 without a user, 200 with `null` data, 404 exactly for "Project not found", else 500 |
| ProjectController.FindOneAgainstStore | apps/server/src/features/project/project.controller.ts:31-48 | Against the database: 404 exactly for a missing id, else 200 with the project and its tasks |
| ProjectController.FindAllAgainstStore | apps/server/src/features/project/project.controller.ts:13-29 | Against the database: 500 exactly on a negative skip, and the reported total is the number of matches |
| ProjectController.Create | apps/server/src/features/project/project.controller.ts:50-64 | 401 without touching the store; otherwise the project is stored and returned with 201 |
| ProjectController.Update | apps/server/src/features/project/project.controller.ts:66-87 | 401 or 404 leave the store untouched; 200 exactly when the id exists, after the patch |
| ProjectController.Delete | apps/server/src/features/project/project.controller.ts:89-113 | 401 or 404 leave the store untouched; 200 exactly when the project and its tasks are gone |
| TaskController.FindAllReply | apps/server/src/features/task/task.controller.ts:9-25 | 200 with tasks and pagination exactly on success, 500 exactly on failure |
| TaskController.FindOneReply | apps/server/src/features/task/task.controller.ts:27-40 | 200 on success, 404 exactly for "Task not found", 500 otherwise |
| TaskController.CreateReply | apps/server/src/features/task/task.controller.ts:42-61 | 401 without a user, 201 on success, 404 exactly for "Project not found", else 500 |
| TaskController.UpdateReply | apps/server/src/features/task/task.controller.ts:63-84 | 401 without a user, 200 on success, 404 exactly for "Task not found", else 500 |
| TaskController.DeleteReply | apps/server/src/features/task/task.controller.ts:86-105 | 401 without a user, 200 with `null` data, 404 exactly for "Task not found", else 500 |
| TaskController.FindOneAgainstStore | apps/server/src/features/task/task.controller.ts:27-40 | Against the database: 404 exactly for a missing id, else 200 with the stored task |
| TaskController.Create | apps/server/src/features/task/task.controller.ts:42-61 | 401, or 404 for a missing project, leave the store untouched; otherwise 201 with the stored task |
| TaskController.Update | apps/server/src/features/task/task.controller.ts:63-84 | 401 or 404 leave the store untouched; 200 exactly when the id exists, after the revision |
| TaskController.Delete | apps/server/src/features/task/task.controller.ts:86-105 | 401 or 404 leave the store untouched; 200 exactly when the task is gone |
| AuthMiddleware.ProfileOf | apps/server/src/middleware/auth.middleware.ts:66-72 | The profile copies id, email, name, image and role from the user row |
| AuthMiddleware.Decide | apps/server/src/middleware/auth.middleware.ts:26-87 | Admits exactly a session user who exists and has no ban in force; 403 with the ban text exactly for a ban in force; every other case is 401 |
| AuthMiddleware.BanInForce | apps/server/src/middleware/auth.middleware.ts:57-64 | No ban is never in force; a ban without expiry always is; a ban that expired at or before now is not |
| AuthMiddleware.ExpiredBanIsNoBan | apps/server/src/middleware/auth.middleware.ts:57-64 | A ban that expired at or before now decides as no ban at all |
| AuthMiddleware.AuthRequest.constructor | apps/server/src/middleware/auth.middleware.ts:7-24 | A request starts with no user and no session |
| AuthMiddleware.RequireAuth | apps/server/src/middleware/auth.middleware.ts:26-87 | Passes exactly when admitted and then sets `user` and `session.user`; a refusal leaves the request unchanged |
| AuthMiddleware.AllowedRoles | apps/server/src/middleware/auth.middleware.ts:90 | A single role becomes the one-element list; a list is kept |
| AuthMiddleware.UserRoles | apps/server/src/middleware/auth.middleware.ts:97-98 | The user's role list is never empty |
| AuthMiddleware.SomeRoleHeld | apps/server/src/middleware/auth.middleware.ts:100 | True exactly when some allowed role is among the held ones |
| AuthMiddleware.RequireRole | apps/server/src/middleware/auth.middleware.ts:89-110 | 401 without a user; otherwise passes exactly when some allowed role is held, else 403 with the permissions text |
| AuthMiddleware.OneRoleIsSingletonList | apps/server/src/middleware/auth.middleware.ts:90 | One role behaves as the list holding it: it passes exactly when that role is held |
| AuthMiddleware.MissingRoleIsUser | apps/server/src/middleware/auth.middleware.ts:97 | A missing or empty role reads as the single role "user" |
| AuthMiddleware.JoinedRolesAreRecovered | apps/server/src/middleware/auth.middleware.ts:98 | Comma-joined names, none with a comma or outer white space, yield exactly those names |
| AuthMiddleware.PaddedRoleIsHeld | apps/server/src/middleware/auth.middleware.ts:98 | Every comma-separated part, trimmed, is a held role |
| ValidationMiddleware.FromResult | apps/server/src/middleware/validation.middleware.ts:8-12 | A schema result becomes a parse outcome: the value, or the issues |
| ValidationMiddleware.SegmentText | apps/server/src/middleware/validation.middleware.ts:21 | A key is written as itself, an index as a non-empty run of digits |
| ValidationMiddleware.PathText | apps/server/src/middleware/validation.middleware.ts:21 | `path.join(".")`: the empty path is the empty text, and a one-step path is that step's text (`KeyPathRecovered` gives the round trip) |
| ValidationMiddleware.Details | apps/server/src/middleware/validation.middleware.ts:20-23 | One detail per issue, in order, with the dotted path and the issue's message |
| ValidationMiddleware.Verdict | apps/server/src/middleware/validation.middleware.ts:7-27 | Next exactly on success; a validation error gives 400 "Validation error" with one detail per issue; anything else gives 500 |
| ValidationMiddleware.KeyPathRecovered | apps/server/src/middleware/validation.middleware.ts:21 | A path of dot-free keys, joined and split on ".", gives back the keys |
| ValidationMiddleware.EmptyNameIsOneDetail | apps/server/src/middleware/validation.middleware.ts:15-24 | An empty project name is answered 400 with the one detail `body.name` / "Name is required" |
| ValidationMiddleware.Request.constructor | apps/server/src/middleware/validation.middleware.ts:5-12 | A request holds the given body, query and params |
| ValidationMiddleware.Request.Parts | apps/server/src/middleware/validation.middleware.ts:8-12 | The `{ body, query, params }` object handed to the schema |
| ValidationMiddleware.Validate | apps/server/src/middleware/validation.middleware.ts:5-29 | The verdict on the whole request; the request is never written |
| ValidationMiddleware.ValidateBody | apps/server/src/middleware/validation.middleware.ts:31-51 | On success only the body is replaced by the parsed value; on failure the request is unchanged |
| ValidationMiddleware.ValidateQuery | apps/server/src/middleware/validation.middleware.ts:53-73 | On success only the query is replaced by the parsed value; on failure the request is unchanged |
| ValidationMiddleware.ValidateParams | apps/server/src/middleware/validation.middleware.ts:75-95 | On success only the params are replaced by the parsed value; on failure the request is unchanged |
| OpenApiMerger.MergeEntries | apps/server/src/config/openapi-merger.ts:18-21 | Every key of either side; the auth side wins a collision; a key only in main keeps main's value |
| OpenApiMerger.MergeWithMissing | apps/server/src/config/openapi-merger.ts:19-20 | Merging with a missing side gives the other side |
| OpenApiMerger.MergeAgain | apps/server/src/config/openapi-merger.ts:18-21 | Merging the auth document in a second time changes nothing |
| OpenApiMerger.MergeComponents | apps/server/src/config/openapi-merger.ts:22-60 | Main's sections plus the nine named ones, each the auth-wins merge; main's other sections are kept |
| OpenApiMerger.FindIndexFrom | apps/server/src/config/openapi-merger.ts:69 | The first index from `i` on with the key, or -1 when there is none |
| OpenApiMerger.FindIndex | apps/server/src/config/openapi-merger.ts:69 | `findIndex`: the first index with the key, or -1 when there is none |
| OpenApiMerger.FilterFirstFrom | apps/server/src/config/openapi-merger.ts:67-70 | The filter from position `i` keeps at most the elements from `i` on, and only those |
| OpenApiMerger.Dedup | apps/server/src/config/openapi-merger.ts:66-81 | The de-duplication is never longer than its input and holds only its elements (`DedupSpec` states the rest) |
| OpenApiMerger.KeepFirst | apps/server/src/config/openapi-merger.ts:66-72 | The one-pass reference de-duplication is never longer than its input |
| OpenApiMerger.FilterFirstIsKeepFirstFrom | apps/server/src/config/openapi-merger.ts:67-70 | From any position, the `filter`/`findIndex` form equals the one-pass form seeded with the keys already seen |
| OpenApiMerger.DedupIsKeepFirst | apps/server/src/config/openapi-merger.ts:67-70 | The source's de-duplication equals the one-pass reference |
| OpenApiMerger.KeepFirstKeysDistinct | apps/server/src/config/openapi-merger.ts:66-72 | The reference keeps no key twice and none already seen |
| OpenApiMerger.KeepFirstKeys | apps/server/src/config/openapi-merger.ts:66-72 | The reference keeps every key of the input that was not already seen |
| OpenApiMerger.KeepFirstIsSubsequence | apps/server/src/config/openapi-merger.ts:66-72 | The reference only drops elements, keeping the order |
| OpenApiMerger.SubsequenceDropHead | apps/server/src/config/openapi-merger.ts:67-70 | A subsequence of the tail is a subsequence of the whole list |
| OpenApiMerger.FilterFirstKeepsFirst | apps/server/src/config/openapi-merger.ts:67-70 | Every element kept is the first element with its key |
| OpenApiMerger.DedupSpec | apps/server/src/config/openapi-merger.ts:66-81 | The de-duplication keeps each key once, loses no key, keeps the first with each key, and keeps the order |
| OpenApiMerger.KeysOfGrow | apps/server/src/config/openapi-merger.ts:67-70 | The keys seen grow by one element's key at each step |
| OpenApiMerger.FirstWithKeyIff | apps/server/src/config/openapi-merger.ts:69 | An element is the first with its key exactly when no earlier element has that key |
| OpenApiMerger.KeepFirstOfUnique | apps/server/src/config/openapi-merger.ts:66-72 | A list without repeated or seen keys is kept whole |
| OpenApiMerger.DedupIdempotent | apps/server/src/config/openapi-merger.ts:66-81 | De-duplicating twice is de-duplicating once |
| OpenApiMerger.MergeDocuments | apps/server/src/config/openapi-merger.ts:4-84 | Other top-level fields from main; the fixed title and description; merged paths and components; tags and servers are the de-duplicated concatenations, with every name/url once |
| OpenApiMerger.DedupKeepsFirst | apps/server/src/config/openapi-merger.ts:66-72 | Every key survives de-duplication, carried only by the first element with it |
| OpenApiMerger.FindIndexInPrefix | apps/server/src/config/openapi-merger.ts:69 | `findIndex` over `xs + ys` finds a key of `xs` where it finds it in `xs` |
| OpenApiMerger.DedupPrefixWins | apps/server/src/config/openapi-merger.ts:61-72 | De-duplicating `main + auth` keeps, for each key of main, main's first element with it |
| OpenApiMerger.MergedTagsWin | apps/server/src/config/openapi-merger.ts:61-72 | Merging tag lists keeps each name of the first list, carried by its first tag of that name |
| OpenApiMerger.MainTagsWin | apps/server/src/config/openapi-merger.ts:61-72 | A main-document tag's name survives, carried by main's first tag of that name |
| WebSchemas.CreateProjectForm | apps/web/lib/validations/project.schema.ts:3-13 | Accepts exactly a 1–200-unit name and a missing, `null` or ≤1000-unit description |
| WebSchemas.UpdateProjectForm | apps/web/lib/validations/project.schema.ts:15-26 | Accepts exactly an optional valid name and a missing, `null` or valid description |
| WebSchemas.CreateTaskForm | apps/web/lib/validations/task.schema.ts:9-16 | Accepts exactly a non-empty project id, a valid title and a valid or missing status (default OPEN) |
| WebSchemas.UpdateTaskForm | apps/web/lib/validations/task.schema.ts:18-25 | Accepts exactly an optional valid title and an optional valid status |
| WebSchemas.CreateProjectWebIsLaxer | apps/web/lib/validations/project.schema.ts:3-13 | Every body the server create schema accepts the web form accepts with the same values; they part exactly on a `null` description |
| WebSchemas.NullDescriptionSplitsCreateSchemas | apps/web/lib/validations/project.schema.ts:8-12 | A named form with a `null` description passes the web form and fails the server schema |
| WebSchemas.UpdateProjectFormsAgree | apps/web/lib/validations/project.schema.ts:15-26 | Web and server update-project schemas accept the same forms and read the same values |
| WebSchemas.CreateTaskFormsAgree | apps/web/lib/validations/task.schema.ts:9-16 | Web and server create-task schemas accept the same forms; the web status equals the server's defaulted status |
| WebSchemas.UpdateTaskFormsAgree | apps/web/lib/validations/task.schema.ts:18-25 | Web and server update-task schemas accept the same forms and read the same values |
| ApiClient.ErrorMessage | apps/web/lib/api/client.ts:16-30 | For an HTTP error, the first non-empty of body message, body error, the error's own message, else the fallback (never empty); an `Error` gives its message; anything else gives the fixed text |
| ApiClient.EmptyBodyMessageIsSkipped | apps/web/lib/api/client.ts:19-24 | An empty body `message` is skipped in favour of `error` |
| ApiClient.ValidationErrors | apps/web/lib/api/client.ts:35-43 | The body's `errors` when present, otherwise the empty map |
| ApiClient.BodyOfReply | apps/server/src/lib/response.ts:45-62 | A server envelope, as the client reads it, carries `message` and `error` and never `errors` |
| ApiClient.ServerRepliesHaveNoFieldErrors | apps/web/lib/api/client.ts:35-43 | Against this server, field errors are always empty, and the message shown is the envelope's message (or its error when that is empty) |
| ApiClient.ValidationReplyShowsItsMessage | apps/server/src/middleware/validation.middleware.ts:16-24 | The 400 validation reply's details never reach the client's field errors; it shows "Validation Error" |
| WebConfig.BaseUrl | apps/web/lib/config.ts:8 | The environment value when set and non-empty, else the local default |
| WebConfig.AuthUrl | apps/web/lib/config.ts:9-11 | With no environment value, the local default auth address |
| WebConfig.AuthUrlWithoutApi | apps/web/lib/config.ts:10 | A value without "/api" is kept whole and "/api/auth" is appended |
| WebConfig.AuthUrlDropsFirstApi | apps/web/lib/config.ts:10 | Only the first "/api" is removed before "/api/auth" is appended |
| WebConfig.FirstApiAt | apps/web/lib/config.ts:10 | With no "/api" starting inside `p`, the first "/api" of `p + "/api" + q` is the one after `p` |
| WebConfig.ApiSuffixBecomesAuth | apps/web/lib/config.ts:10 | An address ending in its only "/api" gets "/api/auth" in its place |
| Strings.IndexOf | apps/web/lib/config.ts:10 | The first position where the pattern occurs, or none when it never occurs |
| Strings.ReplaceFirstSpec | apps/web/lib/config.ts:10 | `replace` with a string pattern rewrites only the first occurrence, or nothing |
| Strings.OccursAtTail | apps/web/lib/config.ts:10 | An occurrence one place further on is an occurrence in the tail |
| Strings.ContainsIgnoringCaseIff | apps/server/src/features/project/project.service.ts:16-19 | `contains` with `mode: "insensitive"` holds exactly when the lowered pattern occurs in the lowered text |
| Strings.ContainsIff | apps/server/src/features/project/project.service.ts:16-19 | `contains` holds exactly when the pattern occurs somewhere |
| Strings.SplitJoin | apps/server/src/middleware/auth.middleware.ts:98 | Splitting a join of separator-free parts gives the parts back |
| Strings.JoinSplit | apps/server/src/middleware/auth.middleware.ts:98 | Joining a split gives the string back |
| Strings.TrimOfTrimmed | apps/server/src/middleware/auth.middleware.ts:98 | `trim` leaves a string without outer white space unchanged |
| Strings.TrimmedHasNoOuterSpace | apps/server/src/middleware/auth.middleware.ts:98 | `trim` leaves no white space at either end |
| Strings.Utf16Length | apps/server/src/features/project/project.dto.ts:9-13 | A string's length in UTF-16 units is between its length in code points and twice that |
| Strings.DigitsValueOfDecimal | apps/server/src/features/project/project.dto.ts:44 | The digits of a number's decimal rendering have that number as their value |
| QueryKeys.Lists | apps/web/hooks/use-projects.ts:22 | `lists()` extends the root by one element |
| QueryKeys.List | apps/web/hooks/use-projects.ts:23-24 | `list(params)` lies under `lists()` |
| QueryKeys.Details | apps/web/hooks/use-projects.ts:25 | `details()` extends the root by one element |
| QueryKeys.Detail | apps/web/hooks/use-projects.ts:26 | `detail(id)` lies under `details()` |
| QueryKeys.ListsAndDetailsAreApart | apps/web/hooks/use-tasks.ts:20-26 | No detail key lies under `lists()` and no list key under `details()` |
| QueryKeys.RootsAreApart | apps/web/hooks/use-tasks.ts:21 | Project keys and task keys never lie under one another |
| QueryKeys.DetailEnabled | apps/web/hooks/use-projects.ts:46 | `enabled: !!id`: a detail query runs exactly for a non-empty id (the same in `useTask`) |
| QueryKeys.Affected | apps/web/hooks/use-projects.ts:59 | Invalidating a key marks exactly the cached keys that start with it |
| QueryKeys.AffectedMonotone | apps/web/hooks/use-tasks.ts:58-63 | A longer key affects no more than its prefix, so the project-specific task invalidation adds nothing |
| QueryKeys.QueryCache.constructor | apps/web/hooks/use-projects.ts:54 | A new cache is empty and valid |
| QueryKeys.QueryCache.Invalidate | apps/web/hooks/use-projects.ts:59 | Marks stale exactly the cached entries under the key, and keeps what is cached |
| QueryKeys.QueryCache.ProjectCreated | apps/web/hooks/use-projects.ts:53-62 | Marks every project list stale and nothing else |
| QueryKeys.QueryCache.ProjectUpdated | apps/web/hooks/use-projects.ts:67-80 | Marks the project lists and that project's detail stale |
| QueryKeys.QueryCache.ProjectDeleted | apps/web/hooks/use-projects.ts:85-94 | Marks the project lists stale; the deleted project's detail entry keeps its staleness |
| QueryKeys.QueryCache.TaskCreated | apps/web/hooks/use-tasks.ts:52-67 | Marks every task list stale; the per-project invalidation adds nothing more |
| QueryKeys.QueryCache.TaskUpdated | apps/web/hooks/use-tasks.ts:72-85 | Marks the task lists and that task's detail stale |
| QueryKeys.QueryCache.TaskDeleted | apps/web/hooks/use-tasks.ts:90-99 | Marks the task lists stale; the deleted task's detail entry keeps its staleness |
| QueryKeys.ProjectListsMissTasks | apps/web/hooks/use-projects.ts:85-94 | Project mutations never mark a task entry stale, although the server deletes a project's tasks with it |

## Left out

- `requirePermission` is not modelled. Its decision is the auth provider's `userHasPermission` answer, which lies outside the code.
- The auth provider, the database client and the user lookup are inputs. Session lookup, user lookup, generated ids and the clock become parameters. `Call` records whether such a call returned or threw.
- Route wiring, logging, the Swagger document itself, the UI components and the HTTP client are not modelled. The project and task routes are not mounted in `apps/server/src/routes/index.ts`.
- Concurrency is not modelled. `Promise.all` and the existence check before each write run as one atomic step, so two requests cannot interleave.
- Deleting a project is assumed to delete its tasks (a database-level cascade that is not part of this model). `delete` itself is a bare `prisma.project.delete`.
- Tie order: rows with equal `createdAt` keep their insertion order. The database leaves that order open.
- A negative `skip` is modelled as a thrown database error with a fixed message; the database's own wording is not modelled. A negative `take` is modelled as the database serves it, counted back from the end of the list.
- Pagination.ParseInt: the parsed number is an exact integer. JavaScript rounds a value above 2^53 to the nearest double, and `skip` and `totalPages` are computed in floating point, so page or limit values that large behave differently in the source.
- ProjectService.PageBeyondLastHasNoProjects: stated for a positive limit only. With a negative limit `totalPages` is at most 0 while pages still serve rows (`NegativeLimitOutrunsTotalPages`).
- TaskService.PageBeyondLastHasNoTasks: stated for a positive limit only, for the same reason.
- ProjectService.EveryMatchIsServed: stated for a positive limit only. With a negative limit the page numbers no longer count the rows from the front.
- Timestamps are integers from a clock parameter. A project keeps only `createdAt`; a task's `createdAt` and `updatedAt` are both set from the clock.
- White space for `trim` and `parseInt` is a subset of JavaScript's: the ASCII spaces and a few Unicode ones. Case-insensitive matching folds ASCII letters only.
- The schema library's own messages are written as its version 3 words them ("Required", "Expected string, received null", the two enum messages). A JSON number carries the text JavaScript renders it as; that rendering is an input. A body that is not an object is not modelled.
- Query-key matching compares keys element by element. The cache library's partial matching of parameter objects is not modelled.
- AuthMiddleware.UserRoles: its contract only says the list is never empty. The split-and-trim reading is stated by `MissingRoleIsUser`, `JoinedRolesAreRecovered` and `PaddedRoleIsHeld`.
- WebConfig.AuthUrl: the contract covers only the unset case. The set case is stated by `AuthUrlWithoutApi`, `AuthUrlDropsFirstApi` and `ApiSuffixBecomesAuth`. No lemma evaluates the two literal defaults against each other.
