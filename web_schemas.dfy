/**
 * `WebSchemas`: the browser client's form schemas. They check the same
 * fields as the server's body schemas, at the top level of the form rather
 * than under `body`, with one difference: the web create-project form
 * accepts a `null` description, which the server's create schema refuses.
 */
module WebSchemas {
  import opened Common
  import opened Strings
  import opened Domain
  import opened Schema
  import ProjectDto
  import TaskDto

  function FormPath(key: string): seq<PathSegment> { [Key(key)] }

  datatype CreateProjectInput = CreateProjectInput(name: string, description: Patch<string>)
  datatype UpdateProjectInput = UpdateProjectInput(name: Option<string>, description: Patch<string>)
  datatype CreateTaskInput = CreateTaskInput(projectId: string, title: string, status: TaskStatus)
  datatype UpdateTaskInput = UpdateTaskInput(title: Option<string>, status: Option<TaskStatus>)

  /** Web `createProjectSchema`: a name of 1 to 200 units; a description that may be missing, `null`, or at most 1000 units. */
  function CreateProjectForm(form: Fields): (r: Result<CreateProjectInput, seq<Issue>>)
    ensures var name, description := Get(form, "name"), Get(form, "description");
      r.Success? <==>
        && name.Str? && ProjectDto.ValidName(name.s)
        && (description.Undefined? || description.Null? || (description.Str? && ProjectDto.ValidDescription(description.s)))
    ensures r.Success? ==>
      && Get(form, "name") == Str(r.value.name)
      && r.value.description == PatchOf(Get(form, "description"))
    ensures r.Failure? ==> |r.error| > 0
  {
    var name, description := Get(form, "name"), Get(form, "description");
    var issues := StringIssues(FormPath("name"), ProjectDto.NameRule, name)
                  + StringIssues(FormPath("description"), ProjectDto.DescriptionRule.(nullable := true), description);
    if issues == [] then Success(CreateProjectInput(name.s, PatchOf(description))) else Failure(issues)
  }

  /** Web `updateProjectSchema`: an optional name (1 to 200 units when given) and a description as in the create form. */
  function UpdateProjectForm(form: Fields): (r: Result<UpdateProjectInput, seq<Issue>>)
    ensures var name, description := Get(form, "name"), Get(form, "description");
      r.Success? <==>
        && (name.Undefined? || (name.Str? && ProjectDto.ValidName(name.s)))
        && (description.Undefined? || description.Null? || (description.Str? && ProjectDto.ValidDescription(description.s)))
    ensures r.Success? ==>
      && r.value.name == StringOf(Get(form, "name"))
      && r.value.description == PatchOf(Get(form, "description"))
    ensures r.Failure? ==> |r.error| > 0
  {
    var name, description := Get(form, "name"), Get(form, "description");
    var issues := StringIssues(FormPath("name"), ProjectDto.NameRule.(optional := true), name)
                  + StringIssues(FormPath("description"), ProjectDto.DescriptionRule.(nullable := true), description);
    if issues == [] then Success(UpdateProjectInput(StringOf(name), PatchOf(description))) else Failure(issues)
  }

  /** Web `createTaskSchema`: a non-empty project id, a title of 1 to 200 units, a status defaulting to OPEN. */
  function CreateTaskForm(form: Fields): (r: Result<CreateTaskInput, seq<Issue>>)
    ensures var projectId, title := Get(form, "projectId"), Get(form, "title");
      r.Success? <==>
        && projectId.Str? && projectId.s != ""
        && title.Str? && TaskDto.ValidTitle(title.s)
        && TaskDto.ValidStatus(Get(form, "status"))
    ensures r.Success? ==>
      && Get(form, "projectId") == Str(r.value.projectId)
      && Get(form, "title") == Str(r.value.title)
      && (Get(form, "status").Undefined? ==> r.value.status == OPEN)
      && (Get(form, "status").Str? ==> Get(form, "status") == Str(StatusName(r.value.status)))
    ensures r.Failure? ==> |r.error| > 0
  {
    var projectId, title, status := Get(form, "projectId"), Get(form, "title"), Get(form, "status");
    var issues := StringIssues(FormPath("projectId"), TaskDto.ProjectIdRule, projectId)
                  + StringIssues(FormPath("title"), TaskDto.TitleRule, title)
                  + StatusIssues(FormPath("status"), true, status);
    if issues == [] then
      Success(CreateTaskInput(projectId.s, title.s, if status.Undefined? then OPEN else StatusOf(status).GetOr(OPEN)))
    else Failure(issues)
  }

  /** Web `updateTaskSchema`: an optional title (1 to 200 units when given) and an optional status. */
  function UpdateTaskForm(form: Fields): (r: Result<UpdateTaskInput, seq<Issue>>)
    ensures var title := Get(form, "title");
      r.Success? <==> (title.Undefined? || (title.Str? && TaskDto.ValidTitle(title.s))) && TaskDto.ValidStatus(Get(form, "status"))
    ensures r.Success? ==>
      && r.value.title == StringOf(Get(form, "title"))
      && r.value.status == StatusOf(Get(form, "status"))
    ensures r.Failure? ==> |r.error| > 0
  {
    var title, status := Get(form, "title"), Get(form, "status");
    var issues := StringIssues(FormPath("title"), TaskDto.TitleRule.(optional := true), title)
                  + StatusIssues(FormPath("status"), true, status);
    if issues == [] then Success(UpdateTaskInput(StringOf(title), StatusOf(status))) else Failure(issues)
  }

  /**
   * Every body the server's create schema accepts, the web form accepts too,
   * with the same name and description; the forms part only on a `null`
   * description, which the web form accepts and the server refuses.
   */
  lemma CreateProjectWebIsLaxer(form: Fields)
    ensures ProjectDto.CreateProjectSchema(form).Success? ==>
      && CreateProjectForm(form).Success?
      && CreateProjectForm(form).value.name == ProjectDto.CreateProjectSchema(form).value.name
      && (CreateProjectForm(form).value.description.Given? <==> ProjectDto.CreateProjectSchema(form).value.description.Some?)
    ensures CreateProjectForm(form).Success? && ProjectDto.CreateProjectSchema(form).Failure? <==>
      CreateProjectForm(form).Success? && Get(form, "description").Null?
  {
  }

  /** A concrete form the two create schemas disagree on: a name and a `null` description. */
  lemma NullDescriptionSplitsCreateSchemas()
    ensures var form := map["name" := Str("Website"), "description" := Null];
      CreateProjectForm(form).Success? && ProjectDto.CreateProjectSchema(form).Failure?
  {
    var form := map["name" := Str("Website"), "description" := Null];
    assert Get(form, "name") == Str("Website") && Get(form, "description") == Null;
    assert Utf16Length("Website") == 7;
  }

  /** The update-project forms of client and server accept the same inputs and read the same values. */
  lemma UpdateProjectFormsAgree(form: Fields)
    ensures UpdateProjectForm(form).Success? <==> ProjectDto.UpdateProjectSchema(form).Success?
    ensures UpdateProjectForm(form).Success? ==>
      && UpdateProjectForm(form).value.name == ProjectDto.UpdateProjectSchema(form).value.name
      && UpdateProjectForm(form).value.description == ProjectDto.UpdateProjectSchema(form).value.description
  {
  }

  /** The create-task forms of client and server accept the same inputs; the web status is the server's, defaulted. */
  lemma CreateTaskFormsAgree(form: Fields)
    ensures CreateTaskForm(form).Success? <==> TaskDto.CreateTaskSchema(form).Success?
    ensures CreateTaskForm(form).Success? ==>
      && CreateTaskForm(form).value.projectId == TaskDto.CreateTaskSchema(form).value.projectId
      && CreateTaskForm(form).value.title == TaskDto.CreateTaskSchema(form).value.title
      && TaskDto.CreateTaskSchema(form).value.status == Some(CreateTaskForm(form).value.status)
  {
    var status := Get(form, "status");
    if CreateTaskForm(form).Success? && status.Str? {
      StatusNamesDistinct(CreateTaskForm(form).value.status, TaskDto.CreateTaskSchema(form).value.status.value);
    }
  }

  /** The update-task forms of client and server accept the same inputs and read the same values. */
  lemma UpdateTaskFormsAgree(form: Fields)
    ensures UpdateTaskForm(form).Success? <==> TaskDto.UpdateTaskSchema(form).Success?
    ensures UpdateTaskForm(form).Success? ==>
      && UpdateTaskForm(form).value.title == TaskDto.UpdateTaskSchema(form).value.title
      && UpdateTaskForm(form).value.status == TaskDto.UpdateTaskSchema(form).value.status
  {
  }
}
