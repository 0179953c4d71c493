/**
 * The two resources of the service: a Project owns Tasks. `TaskStatus` is the
 * enum shared by the database client and the web client, whose values are the
 * names of its members.
 */
module Domain {
  import opened Common

  datatype TaskStatus = OPEN | IN_PROGRESS | DONE

  const AllStatuses: seq<TaskStatus> := [OPEN, IN_PROGRESS, DONE]

  /** The string value of each enum member. */
  function StatusName(s: TaskStatus): string {
    match s
    case OPEN => "OPEN"
    case IN_PROGRESS => "IN_PROGRESS"
    case DONE => "DONE"
  }

  /** `z.nativeEnum(TaskStatus)` on a string: exactly the three member values are accepted. */
  function ParseStatus(v: string): (r: Option<TaskStatus>)
    ensures r.Some? ==> StatusName(r.value) == v
  {
    if v == "OPEN" then Some(OPEN)
    else if v == "IN_PROGRESS" then Some(IN_PROGRESS)
    else if v == "DONE" then Some(DONE)
    else None
  }

  /** Each member's value is its own name, and parsing that name gives the member back. */
  lemma StatusRoundTrip(s: TaskStatus)
    ensures ParseStatus(StatusName(s)) == Some(s)
    ensures StatusName(s) != ""
  {
  }

  /** The enum has exactly three members, and no two share a value. */
  lemma StatusNamesDistinct(s: TaskStatus, t: TaskStatus)
    ensures s in AllStatuses
    ensures StatusName(s) == StatusName(t) ==> s == t
  {
  }

  /** A row of the project table; `createdAt` is a timestamp in milliseconds. */
  datatype Project = Project(id: string, name: string, description: Option<string>, createdAt: int)

  /** A row of the task table. */
  datatype Task = Task(id: string, projectId: string, title: string, status: TaskStatus,
                       createdAt: int, updatedAt: int)

  /** `ProjectWithTasks`: a project with its tasks, newest first. */
  datatype ProjectWithTasks = ProjectWithTasks(project: Project, tasks: seq<Task>)

  /** `TaskWithProject`: a task with the selected fields of its project (all of them in this model). */
  datatype TaskWithProject = TaskWithProject(task: Task, project: Project)

  function ProjectCreated(p: Project): int { p.createdAt }
  function TaskCreated(t: Task): int { t.createdAt }
  function ProjectId(p: Project): string { p.id }
  function TaskId(t: Task): string { t.id }
}
