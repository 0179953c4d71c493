/**
 * The server's task request schemas: `createTaskSchema`, `updateTaskSchema`
 * (both on the request `body`) and `queryTasksSchema` (on the request `query`).
 */
module TaskDto {
  import opened Common
  import opened Strings
  import opened Domain
  import opened Schema
  import opened Pagination
  import ProjectDto

  /**
   * The create input. The schema always fills `status` (its default is OPEN);
   * a body that reaches the service unparsed may leave it out, and the service
   * then applies `status || "OPEN"` itself.
   */
  datatype CreateTaskDto = CreateTaskDto(projectId: string, title: string, status: Option<TaskStatus>)
  datatype UpdateTaskDto = UpdateTaskDto(title: Option<string>, status: Option<TaskStatus>)
  datatype QueryTasksDto = QueryTasksDto(page: QueryNumber, limit: QueryNumber, projectId: Option<string>,
                                         status: Option<TaskStatus>, title: Option<string>)

  /** `TaskListResponse`: one page of tasks and its pagination block. */
  datatype TaskListResponse = TaskListResponse(tasks: seq<TaskWithProject>, pagination: PaginationMeta)

  const ProjectIdRule := StringRule(1, "Project ID is required", None, "", false, false)
  const TitleRule := StringRule(1, "Title is required", Some(200), "Title must be less than 200 characters", false, false)

  /** A title of 1 to 200 UTF-16 units. */
  predicate ValidTitle(s: string) {
    1 <= Utf16Length(s) <= 200
  }

  /** A status field the enum accepts when present. */
  predicate ValidStatus(v: Value) {
    v.Undefined? || (v.Str? && ParseStatus(v.s).Some?)
  }

  /**
   * `createTaskSchema`: a non-empty project id, a title of 1 to 200 units and an
   * optional status that defaults to OPEN.
   */
  function CreateTaskSchema(body: Fields): (r: Result<CreateTaskDto, seq<Issue>>)
    ensures var projectId, title := Get(body, "projectId"), Get(body, "title");
      r.Success? <==>
        && projectId.Str? && projectId.s != ""
        && title.Str? && ValidTitle(title.s)
        && ValidStatus(Get(body, "status"))
    ensures r.Success? ==>
      && Get(body, "projectId") == Str(r.value.projectId)
      && Get(body, "title") == Str(r.value.title)
      && r.value.status.Some?
      && (Get(body, "status").Undefined? ==> r.value.status == Some(OPEN))
      && (Get(body, "status").Str? ==> Get(body, "status") == Str(StatusName(r.value.status.value)))
    ensures r.Failure? ==> |r.error| > 0
  {
    var projectId, title, status := Get(body, "projectId"), Get(body, "title"), Get(body, "status");
    var issues := StringIssues(ProjectDto.BodyPath("projectId"), ProjectIdRule, projectId)
                  + StringIssues(ProjectDto.BodyPath("title"), TitleRule, title)
                  + StatusIssues(ProjectDto.BodyPath("status"), true, status);
    if issues == [] then
      Success(CreateTaskDto(projectId.s, title.s, if status.Undefined? then Some(OPEN) else StatusOf(status)))
    else Failure(issues)
  }

  /** `updateTaskSchema`: an optional title (1 to 200 units when given) and an optional status; nothing else. */
  function UpdateTaskSchema(body: Fields): (r: Result<UpdateTaskDto, seq<Issue>>)
    ensures var title := Get(body, "title");
      r.Success? <==> (title.Undefined? || (title.Str? && ValidTitle(title.s))) && ValidStatus(Get(body, "status"))
    ensures r.Success? ==>
      && r.value.title == StringOf(Get(body, "title"))
      && r.value.status == StatusOf(Get(body, "status"))
    ensures r.Failure? ==> |r.error| > 0
  {
    var title, status := Get(body, "title"), Get(body, "status");
    var issues := StringIssues(ProjectDto.BodyPath("title"), TitleRule.(optional := true), title)
                  + StatusIssues(ProjectDto.BodyPath("status"), true, status);
    if issues == [] then Success(UpdateTaskDto(StringOf(title), StatusOf(status)))
    else Failure(issues)
  }

  /** `queryTasksSchema`: page and limit as in the project query; optional project id, status and title. */
  function QueryTasksSchema(query: Fields): (r: Result<QueryTasksDto, seq<Issue>>)
    ensures r.Success? <==>
      && (forall key :: key in ["page", "limit", "projectId", "title"] ==>
            Get(query, key).Undefined? || Get(query, key).Str?)
      && ValidStatus(Get(query, "status"))
    ensures r.Success? ==>
      && r.value.page == QueryTransform(StringOf(Get(query, "page")))
      && r.value.limit == QueryTransform(StringOf(Get(query, "limit")))
      && r.value.projectId == StringOf(Get(query, "projectId"))
      && r.value.status == StatusOf(Get(query, "status"))
      && r.value.title == StringOf(Get(query, "title"))
  {
    var page, limit := Get(query, "page"), Get(query, "limit");
    var projectId, status, title := Get(query, "projectId"), Get(query, "status"), Get(query, "title");
    var issues := StringIssues(ProjectDto.QueryPath("page"), ProjectDto.OptionalString, page)
                  + StringIssues(ProjectDto.QueryPath("limit"), ProjectDto.OptionalString, limit)
                  + StringIssues(ProjectDto.QueryPath("projectId"), ProjectDto.OptionalString, projectId)
                  + StatusIssues(ProjectDto.QueryPath("status"), true, status)
                  + StringIssues(ProjectDto.QueryPath("title"), ProjectDto.OptionalString, title);
    if issues == [] then
      Success(QueryTasksDto(QueryTransform(StringOf(page)), QueryTransform(StringOf(limit)),
                            StringOf(projectId), StatusOf(status), StringOf(title)))
    else Failure(issues)
  }

  /** The update schema ignores a `projectId` in the body: a task cannot be moved. */
  lemma UpdateIgnoresProjectId(body: Fields, projectId: Value)
    ensures UpdateTaskSchema(body["projectId" := projectId]) == UpdateTaskSchema(body)
  {
    assert Get(body["projectId" := projectId], "title") == Get(body, "title");
    assert Get(body["projectId" := projectId], "status") == Get(body, "status");
  }
}
