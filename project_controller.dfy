/**
 * `ProjectController`: each handler turns whether the request is
 * authenticated (`req.user` is set) and what the service returned or threw
 * into one reply. The `...Reply` functions are the decision tables; the
 * methods run the service against the database and reply.
 */
module ProjectController {
  import opened Common
  import opened Domain
  import opened Store
  import opened ApiResponse
  import opened ProjectDto
  import PS = ProjectService

  /** What the handlers map to 404: an `Error` whose message is "Project not found". */
  predicate IsProjectNotFound(e: Thrown) {
    e.isError && e.message == PS.ProjectNotFound
  }

  /** `findAll`: 200 with the projects as data and the pagination attached; any failure is 500. */
  function FindAllReply(outcome: Result<ProjectListResponse, Thrown>): (r: Response<seq<ProjectWithTasks>>)
    ensures r.status == 200 <==> outcome.Success?
    ensures r.status == 500 <==> outcome.Failure?
    ensures outcome.Success? ==>
      r.body == SuccessEnvelope("Projects retrieved successfully", outcome.value.projects, Some(outcome.value.pagination))
    ensures Consistent(r)
  {
    match outcome
    case Success(result) => SuccessReply(result.projects, "Projects retrieved successfully", 200, Some(result.pagination))
    case Failure(_) => InternalServerError()
  }

  /** `findOne`: 200 with the project, 404 for "Project not found", 500 for anything else. */
  function FindOneReply(outcome: Result<ProjectWithTasks, Thrown>): (r: Response<ProjectWithTasks>)
    ensures r.status == 200 <==> outcome.Success?
    ensures r.status == 404 <==> outcome.Failure? && IsProjectNotFound(outcome.error)
    ensures r.status == 500 <==> outcome.Failure? && !IsProjectNotFound(outcome.error)
    ensures r.status == 200 ==> r.body == SuccessEnvelope("Project retrieved successfully", outcome.value, None)
    ensures r.status == 404 ==> r.body == ErrorEnvelope("Not Found", "Project not found", None)
    ensures Consistent(r)
  {
    match outcome
    case Success(project) => SuccessReply(project, "Project retrieved successfully")
    case Failure(e) => if IsProjectNotFound(e) then NotFound(e.message) else InternalServerError()
  }

  /** `create`: 401 without a user; 201 with the project; every failure is 500 (there is no 404 branch). */
  function CreateReply(authenticated: bool, outcome: Result<ProjectWithTasks, Thrown>): (r: Response<ProjectWithTasks>)
    ensures r.status == 401 <==> !authenticated
    ensures r.status == 201 <==> authenticated && outcome.Success?
    ensures r.status == 500 <==> authenticated && outcome.Failure?
    ensures !authenticated ==> r == Unauthorized()
    ensures r.status == 201 ==> r.body == SuccessEnvelope("Project created successfully", outcome.value, None)
    ensures Consistent(r)
  {
    if !authenticated then Unauthorized()
    else match outcome
      case Success(project) => Created(project, "Project created successfully")
      case Failure(_) => InternalServerError()
  }

  /** `update`: 401 without a user; 200 with the project; 404 for "Project not found"; 500 otherwise. */
  function UpdateReply(authenticated: bool, outcome: Result<ProjectWithTasks, Thrown>): (r: Response<ProjectWithTasks>)
    ensures r.status == 401 <==> !authenticated
    ensures r.status == 200 <==> authenticated && outcome.Success?
    ensures r.status == 404 <==> authenticated && outcome.Failure? && IsProjectNotFound(outcome.error)
    ensures r.status == 500 <==> authenticated && outcome.Failure? && !IsProjectNotFound(outcome.error)
    ensures !authenticated ==> r == Unauthorized()
    ensures r.status == 200 ==> r.body == SuccessEnvelope("Project updated successfully", outcome.value, None)
    ensures r.status == 404 ==> r.body == ErrorEnvelope("Not Found", "Project not found", None)
    ensures Consistent(r)
  {
    if !authenticated then Unauthorized()
    else match outcome
      case Success(project) => SuccessReply(project, "Project updated successfully")
      case Failure(e) => if IsProjectNotFound(e) then NotFound(e.message) else InternalServerError()
  }

  /** `delete`: 401 without a user; 200 with `null` data; 404 for "Project not found"; 500 otherwise. */
  function DeleteReply(authenticated: bool, outcome: Result<(), Thrown>): (r: Response<JsonNull>)
    ensures r.status == 401 <==> !authenticated
    ensures r.status == 200 <==> authenticated && outcome.Success?
    ensures r.status == 404 <==> authenticated && outcome.Failure? && IsProjectNotFound(outcome.error)
    ensures r.status == 500 <==> authenticated && outcome.Failure? && !IsProjectNotFound(outcome.error)
    ensures !authenticated ==> r == Unauthorized()
    ensures r.status == 200 ==> r.body == SuccessEnvelope("Project deleted successfully", JsonNull, None)
    ensures Consistent(r)
  {
    if !authenticated then Unauthorized()
    else match outcome
      case Success(_) => SuccessReply(JsonNull, "Project deleted successfully", 200)
      case Failure(e) => if IsProjectNotFound(e) then NotFound(e.message) else InternalServerError()
  }

  /** Against the database, `findOne` answers 404 exactly for a missing id and 200 with the project otherwise. */
  lemma FindOneAgainstStore(db: Database, id: string)
    requires db.Valid()
    ensures var r := FindOneReply(PS.FindOne(db, id));
      && (r.status == 404 <==> id !in db.projects)
      && (r.status == 200 <==> id in db.projects)
      && (r.status == 200 ==> r.body.data == PS.WithTasks(db, db.projects[id]))
  {
  }

  /** Against the database, `findAll` fails with 500 exactly when `skip` is negative. */
  lemma FindAllAgainstStore(db: Database, q: QueryProjectsDto)
    requires db.Valid()
    ensures var r, w := FindAllReply(PS.FindAll(db, q)), Pagination.WindowOf(q.page, q.limit);
      && (r.status == 500 <==> w.skip < 0)
      && (r.status == 200 ==> r.body.pagination.Some? && r.body.pagination.value.total == |PS.Matching(db, q.name)|)
  {
  }

  /** The `create` handler: without a user, 401 and the store untouched; otherwise the project is stored and 201 returned. */
  method Create(db: Database, authenticated: bool, data: CreateProjectDto, newId: string, now: int)
    returns (r: Response<ProjectWithTasks>)
    requires db.Valid() && newId !in db.projects
    modifies db
    ensures db.Valid()
    ensures !authenticated ==> r == Unauthorized() && unchanged(db)
    ensures authenticated ==>
      && r.status == 201
      && db.projects == old(db.projects)[newId := Project(newId, data.name, data.description, now)]
      && db.tasks == old(db.tasks)
      && r.body.SuccessEnvelope? && r.body.data == PS.WithTasks(db, db.projects[newId])
  {
    if !authenticated {
      return Unauthorized();
    }
    var project := PS.Create(db, data, newId, now);
    r := CreateReply(true, Success(project));
  }

  /** The `update` handler: 401 and no change without a user; 404 and no change for a missing id; 200 after the patch. */
  method Update(db: Database, authenticated: bool, id: string, data: UpdateProjectDto)
    returns (r: Response<ProjectWithTasks>)
    requires db.Valid()
    modifies db
    ensures db.Valid()
    ensures !authenticated ==> r == Unauthorized() && unchanged(db)
    ensures authenticated ==> (r.status == 404 <==> id !in old(db.projects))
    ensures authenticated ==> (r.status == 200 <==> id in old(db.projects))
    ensures r.status == 404 ==> unchanged(db)
    ensures r.status == 200 ==>
      && db.projects == old(db.projects)[id := PS.Patched(old(db.projects[id]), data)]
      && db.tasks == old(db.tasks)
      && r.body.SuccessEnvelope? && r.body.data == PS.WithTasks(db, db.projects[id])
  {
    if !authenticated {
      return Unauthorized();
    }
    var outcome := PS.Update(db, id, data);
    r := UpdateReply(true, outcome);
  }

  /** The `delete` handler: 401 and no change without a user; 404 and no change for a missing id; 200 once the project and its tasks are gone. */
  method Delete(db: Database, authenticated: bool, id: string) returns (r: Response<JsonNull>)
    requires db.Valid()
    modifies db
    ensures db.Valid()
    ensures !authenticated ==> r == Unauthorized() && unchanged(db)
    ensures authenticated ==> (r.status == 404 <==> id !in old(db.projects))
    ensures authenticated ==> (r.status == 200 <==> id in old(db.projects))
    ensures r.status == 404 ==> unchanged(db)
    ensures r.status == 200 ==>
      && db.projects == old(db.projects) - {id}
      && db.tasks == PS.TasksWithout(old(db.tasks), id)
      && r.body.SuccessEnvelope? && r.body.data == JsonNull
  {
    if !authenticated {
      return Unauthorized();
    }
    var outcome := PS.Delete(db, id);
    r := DeleteReply(true, outcome);
  }
}
