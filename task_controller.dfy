/**
 * `TaskController`: the same decision tables as the project handlers, over
 * the task service. `create` also answers 404 when the task's project is
 * missing.
 */
module TaskController {
  import opened Common
  import opened Domain
  import opened Store
  import opened ApiResponse
  import opened TaskDto
  import TS = TaskService

  /** An `Error` whose message is exactly `text`. */
  predicate IsErrorWith(e: Thrown, text: string) {
    e.isError && e.message == text
  }

  /** `findAll`: 200 with the tasks as data and the pagination attached; any failure is 500. */
  function FindAllReply(outcome: Result<TaskListResponse, Thrown>): (r: Response<seq<TaskWithProject>>)
    ensures r.status == 200 <==> outcome.Success?
    ensures r.status == 500 <==> outcome.Failure?
    ensures outcome.Success? ==>
      r.body == SuccessEnvelope("Tasks retrieved successfully", outcome.value.tasks, Some(outcome.value.pagination))
    ensures Consistent(r)
  {
    match outcome
    case Success(result) => SuccessReply(result.tasks, "Tasks retrieved successfully", 200, Some(result.pagination))
    case Failure(_) => InternalServerError()
  }

  /** `findOne`: 200 with the task, 404 for "Task not found", 500 for anything else. */
  function FindOneReply(outcome: Result<TaskWithProject, Thrown>): (r: Response<TaskWithProject>)
    ensures r.status == 200 <==> outcome.Success?
    ensures r.status == 404 <==> outcome.Failure? && IsErrorWith(outcome.error, TS.TaskNotFound)
    ensures r.status == 500 <==> outcome.Failure? && !IsErrorWith(outcome.error, TS.TaskNotFound)
    ensures r.status == 200 ==> r.body == SuccessEnvelope("Task retrieved successfully", outcome.value, None)
    ensures r.status == 404 ==> r.body == ErrorEnvelope("Not Found", "Task not found", None)
    ensures Consistent(r)
  {
    match outcome
    case Success(task) => SuccessReply(task, "Task retrieved successfully")
    case Failure(e) => if IsErrorWith(e, TS.TaskNotFound) then NotFound(e.message) else InternalServerError()
  }

  /** `create`: 401 without a user; 201 with the task; 404 for "Project not found"; 500 otherwise. */
  function CreateReply(authenticated: bool, outcome: Result<TaskWithProject, Thrown>): (r: Response<TaskWithProject>)
    ensures r.status == 401 <==> !authenticated
    ensures r.status == 201 <==> authenticated && outcome.Success?
    ensures r.status == 404 <==> authenticated && outcome.Failure? && IsErrorWith(outcome.error, TS.ProjectNotFound)
    ensures r.status == 500 <==> authenticated && outcome.Failure? && !IsErrorWith(outcome.error, TS.ProjectNotFound)
    ensures !authenticated ==> r == Unauthorized()
    ensures r.status == 201 ==> r.body == SuccessEnvelope("Task created successfully", outcome.value, None)
    ensures r.status == 404 ==> r.body == ErrorEnvelope("Not Found", "Project not found", None)
    ensures Consistent(r)
  {
    if !authenticated then Unauthorized()
    else match outcome
      case Success(task) => Created(task, "Task created successfully")
      case Failure(e) => if IsErrorWith(e, TS.ProjectNotFound) then NotFound(e.message) else InternalServerError()
  }

  /** `update`: 401 without a user; 200 with the task; 404 for "Task not found"; 500 otherwise. */
  function UpdateReply(authenticated: bool, outcome: Result<TaskWithProject, Thrown>): (r: Response<TaskWithProject>)
    ensures r.status == 401 <==> !authenticated
    ensures r.status == 200 <==> authenticated && outcome.Success?
    ensures r.status == 404 <==> authenticated && outcome.Failure? && IsErrorWith(outcome.error, TS.TaskNotFound)
    ensures r.status == 500 <==> authenticated && outcome.Failure? && !IsErrorWith(outcome.error, TS.TaskNotFound)
    ensures !authenticated ==> r == Unauthorized()
    ensures r.status == 200 ==> r.body == SuccessEnvelope("Task updated successfully", outcome.value, None)
    ensures r.status == 404 ==> r.body == ErrorEnvelope("Not Found", "Task not found", None)
    ensures Consistent(r)
  {
    if !authenticated then Unauthorized()
    else match outcome
      case Success(task) => SuccessReply(task, "Task updated successfully")
      case Failure(e) => if IsErrorWith(e, TS.TaskNotFound) then NotFound(e.message) else InternalServerError()
  }

  /** `delete`: 401 without a user; 200 with `null` data; 404 for "Task not found"; 500 otherwise. */
  function DeleteReply(authenticated: bool, outcome: Result<(), Thrown>): (r: Response<JsonNull>)
    ensures r.status == 401 <==> !authenticated
    ensures r.status == 200 <==> authenticated && outcome.Success?
    ensures r.status == 404 <==> authenticated && outcome.Failure? && IsErrorWith(outcome.error, TS.TaskNotFound)
    ensures r.status == 500 <==> authenticated && outcome.Failure? && !IsErrorWith(outcome.error, TS.TaskNotFound)
    ensures !authenticated ==> r == Unauthorized()
    ensures r.status == 200 ==> r.body == SuccessEnvelope("Task deleted successfully", JsonNull, None)
    ensures Consistent(r)
  {
    if !authenticated then Unauthorized()
    else match outcome
      case Success(_) => SuccessReply(JsonNull, "Task deleted successfully", 200)
      case Failure(e) => if IsErrorWith(e, TS.TaskNotFound) then NotFound(e.message) else InternalServerError()
  }

  /** Against the database, `findOne` answers 404 exactly for a missing id. */
  lemma FindOneAgainstStore(db: Database, id: string)
    requires db.Valid()
    ensures var r := FindOneReply(TS.FindOne(db, id));
      && (r.status == 404 <==> id !in db.tasks)
      && (r.status == 200 <==> id in db.tasks)
      && (r.status == 200 ==> r.body.data.task == db.tasks[id])
  {
  }

  /** The `create` handler: 401 without a user and 404 for a missing project, both leaving the store untouched; otherwise 201. */
  method Create(db: Database, authenticated: bool, data: CreateTaskDto, newId: string, now: int)
    returns (r: Response<TaskWithProject>)
    requires db.Valid() && newId !in db.tasks
    modifies db
    ensures db.Valid()
    ensures !authenticated ==> r == Unauthorized() && unchanged(db)
    ensures authenticated ==> (r.status == 404 <==> data.projectId !in old(db.projects))
    ensures authenticated ==> (r.status == 201 <==> data.projectId in old(db.projects))
    ensures r.status == 404 ==> unchanged(db)
    ensures r.status == 201 ==>
      && db.tasks == old(db.tasks)[newId := Task(newId, data.projectId, data.title, data.status.GetOr(OPEN), now, now)]
      && db.projects == old(db.projects)
      && r.body.SuccessEnvelope? && r.body.data == TS.WithProject(db, db.tasks[newId])
  {
    if !authenticated {
      return Unauthorized();
    }
    var outcome := TS.Create(db, data, newId, now);
    r := CreateReply(true, outcome);
  }

  /** The `update` handler: 401 and no change without a user; 404 and no change for a missing id; 200 after the update. */
  method Update(db: Database, authenticated: bool, id: string, data: UpdateTaskDto, now: int)
    returns (r: Response<TaskWithProject>)
    requires db.Valid()
    modifies db
    ensures db.Valid()
    ensures !authenticated ==> r == Unauthorized() && unchanged(db)
    ensures authenticated ==> (r.status == 404 <==> id !in old(db.tasks))
    ensures authenticated ==> (r.status == 200 <==> id in old(db.tasks))
    ensures r.status == 404 ==> unchanged(db)
    ensures r.status == 200 ==>
      && db.tasks == old(db.tasks)[id := TS.Revised(old(db.tasks[id]), data, now)]
      && db.projects == old(db.projects)
      && r.body.SuccessEnvelope? && r.body.data == TS.WithProject(db, db.tasks[id])
  {
    if !authenticated {
      return Unauthorized();
    }
    var outcome := TS.Update(db, id, data, now);
    r := UpdateReply(true, outcome);
  }

  /** The `delete` handler: 401 and no change without a user; 404 and no change for a missing id; 200 once the task is gone. */
  method Delete(db: Database, authenticated: bool, id: string) returns (r: Response<JsonNull>)
    requires db.Valid()
    modifies db
    ensures db.Valid()
    ensures !authenticated ==> r == Unauthorized() && unchanged(db)
    ensures authenticated ==> (r.status == 404 <==> id !in old(db.tasks))
    ensures authenticated ==> (r.status == 200 <==> id in old(db.tasks))
    ensures r.status == 404 ==> unchanged(db)
    ensures r.status == 200 ==>
      && db.tasks == old(db.tasks) - {id}
      && db.projects == old(db.projects)
      && r.body.SuccessEnvelope? && r.body.data == JsonNull
  {
    if !authenticated {
      return Unauthorized();
    }
    var outcome := TS.Delete(db, id);
    r := DeleteReply(true, outcome);
  }
}
