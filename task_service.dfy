/**
 * `TaskService` over the shared database, one atomic step per call. The id
 * the database generates and its clock are parameters.
 */
module TaskService {
  import opened Common
  import opened Strings
  import opened Domain
  import opened Query
  import opened Store
  import opened Pagination
  import opened TaskDto

  const TaskNotFound: string := "Task not found"
  const ProjectNotFound: string := "Project not found"

  /** What the database throws for a negative `skip`; its wording is not modelled. */
  const InvalidWindow: string := "Invalid findMany invocation"

  /**
   * The `where` object `findAll` builds: each field is set only when the
   * query's value is truthy.
   */
  datatype TaskWhere = TaskWhere(projectId: Option<string>, status: Option<TaskStatus>, title: Option<string>)

  /** A string query value is truthy when it is present and not empty. */
  function Truthy(v: Option<string>): Option<string> {
    if v.Some? && v.value != "" then v else None
  }

  /** The `where` object `findAll` builds: a truthy string filter is copied, a falsy one left out. */
  function WhereOf(q: QueryTasksDto): (w: TaskWhere)
    ensures w.projectId.Some? <==> q.projectId.Some? && q.projectId.value != ""
    ensures w.projectId.Some? ==> w.projectId == q.projectId
    ensures w.status == q.status
    ensures w.title.Some? <==> q.title.Some? && q.title.value != ""
    ensures w.title.Some? ==> w.title == q.title
  {
    TaskWhere(Truthy(q.projectId), q.status, Truthy(q.title))
  }

  /** The rows a `where` object accepts: every condition it holds must hold. */
  function Accepts(where: TaskWhere, t: Task): (b: bool)
    ensures where == TaskWhere(None, None, None) ==> b
  {
    && (where.projectId.Some? ==> t.projectId == where.projectId.value)
    && (where.status.Some? ==> t.status == where.status.value)
    && (where.title.Some? ==> ContainsIgnoringCase(t.title, where.title.value))
  }

  /**
   * The filters are conjunctive and a falsy query value (missing or empty)
   * adds no condition.
   */
  lemma WhereIsConjunctive(q: QueryTasksDto, t: Task)
    ensures Accepts(WhereOf(q), t) <==>
      && (q.projectId.None? || q.projectId.value == "" || t.projectId == q.projectId.value)
      && (q.status.None? || t.status == q.status.value)
      && (q.title.None? || q.title.value == "" || ContainsIgnoringCase(t.title, q.title.value))
  {
  }

  /** The tasks `where` accepts, newest first; rows with equal timestamps keep their physical order. */
  function Matching(db: Database, where: TaskWhere): (r: seq<Task>)
    reads db
    requires db.Valid()
    ensures forall t :: t in r <==> t.id in db.tasks && db.tasks[t.id] == t && Accepts(where, t)
    ensures forall t :: t in r ==> t.projectId in db.projects
    ensures Distinct(r)
    ensures NewestFirst(r, TaskCreated)
  {
    var scan := db.TaskScan();
    var kept := Filter(scan, t => Accepts(where, t));
    FilterKeepsDistinct(scan, t => Accepts(where, t));
    SortedMembers(kept, TaskCreated);
    SortNewest(kept, TaskCreated)
  }

  /** A stored task together with its project (`include: { project: { select: ... } }`). */
  function WithProject(db: Database, t: Task): (r: TaskWithProject)
    reads db
    requires db.Valid() && t.projectId in db.projects
    ensures r.task == t && r.project == db.projects[t.projectId] && r.project.id == t.projectId
  {
    TaskWithProject(t, db.projects[t.projectId])
  }

  function AllWithProject(db: Database, ts: seq<Task>): (r: seq<TaskWithProject>)
    reads db
    requires db.Valid()
    requires forall t :: t in ts ==> t.projectId in db.projects
    ensures |r| == |ts|
    ensures forall i :: 0 <= i < |ts| ==> r[i] == WithProject(db, ts[i])
  {
    seq(|ts|, i requires 0 <= i < |ts| && db.Valid() && ts[i].projectId in db.projects reads db => WithProject(db, ts[i]))
  }

  /**
   * `findAll`: one page of the accepted tasks, newest first, each with its
   * project; `total` counts every accepted task and `totalPages` is
   * `ceil(total / limit)`. A negative `skip` makes the database throw; a
   * negative `take` (a negative limit) serves rows from the end of the list.
   */
  function FindAll(db: Database, q: QueryTasksDto): (r: Result<TaskListResponse, Thrown>)
    reads db
    requires db.Valid()
    ensures var w := WindowOf(q.page, q.limit);
      r.Failure? <==> w.skip < 0
    ensures r.Failure? ==> r.error.message != TaskNotFound && r.error.message != ProjectNotFound
    ensures r.Success? ==>
      var w, m := WindowOf(q.page, q.limit), Matching(db, WhereOf(q));
      && r.value.pagination.page == w.page
      && r.value.pagination.limit == w.limit
      && r.value.pagination.total == |m|
      && r.value.pagination.totalPages == TotalPages(|m|, w.limit)
  {
    var w := WindowOf(q.page, q.limit);
    if w.skip < 0 then Failure(ErrorWith(InvalidWindow))
    else
      var m := Matching(db, WhereOf(q));
      Success(TaskListResponse(AllWithProject(db, Served(m, w.skip, w.limit)), Meta(w, |m|)))
  }

  /**
   * `page` is what `findMany({ skip, take })` serves from `rows`, each task
   * with its project: item `i` is the row at `ServedStart + i`.
   */
  ghost predicate IsPage(db: Database, page: seq<TaskWithProject>, rows: seq<Task>, skip: nat, take: int)
    reads db
    requires db.Valid() && forall t :: t in rows ==> t.projectId in db.projects
  {
    && |page| == ServedCount(|rows|, skip, take)
    && forall i :: 0 <= i < |page| ==>
         ServedStart(|rows|, skip, take) + i < |rows| && page[i] == WithProject(db, rows[ServedStart(|rows|, skip, take) + i])
  }

  lemma PageRows(db: Database, rows: seq<Task>, skip: nat, take: int, page: seq<TaskWithProject>)
    requires db.Valid() && forall t :: t in rows ==> t.projectId in db.projects
    requires page == AllWithProject(db, Served(rows, skip, take))
    ensures IsPage(db, page, rows, skip, take)
  {
    var served, s := Served(rows, skip, take), ServedStart(|rows|, skip, take);
    forall i | 0 <= i < |page|
      ensures s + i < |rows| && page[i] == WithProject(db, rows[s + i])
    {
      assert page[i] == WithProject(db, served[i]);
    }
  }

  /**
   * The tasks `findAll` serves are a run of consecutive selected tasks,
   * newest first, each with its project: `[skip, skip + limit)` for a positive
   * limit, and for a negative limit the `-limit` tasks that end `skip` before
   * the end (see `ServedStart` and `ServedCount`).
   */
  lemma FindAllServesSlice(db: Database, q: QueryTasksDto)
    requires db.Valid()
    requires FindAll(db, q).Success?
    ensures WindowOf(q.page, q.limit).skip >= 0
    ensures IsPage(db, FindAll(db, q).value.tasks, Matching(db, WhereOf(q)), WindowOf(q.page, q.limit).skip, WindowOf(q.page, q.limit).limit)
  {
    var w, m := WindowOf(q.page, q.limit), Matching(db, WhereOf(q));
    PageRows(db, m, w.skip, w.limit, FindAll(db, q).value.tasks);
  }

  /** A page holds `|limit|` tasks unless the selection runs out before it is full. */
  lemma FindAllPageSize(db: Database, q: QueryTasksDto)
    requires db.Valid()
    requires FindAll(db, q).Success?
    ensures var w, m, page := WindowOf(q.page, q.limit), Matching(db, WhereOf(q)), FindAll(db, q).value.tasks;
      && |page| <= Abs(w.limit)
      && (|page| < Abs(w.limit) ==> w.skip + |page| >= |m|)
  {
    FindAllServesSlice(db, q);
  }

  /**
   * With a positive limit, a page past `totalPages` holds no tasks. (With a
   * negative limit `totalPages` is at most zero while pages still serve rows.)
   */
  lemma PageBeyondLastHasNoTasks(db: Database, q: QueryTasksDto)
    requires db.Valid()
    requires FindAll(db, q).Success?
    requires WindowOf(q.page, q.limit).limit > 0
    requires WindowOf(q.page, q.limit).page > FindAll(db, q).value.pagination.totalPages
    ensures FindAll(db, q).value.tasks == []
  {
    FindAllServesSlice(db, q);
    EmptyBeyondLast(db, Matching(db, WhereOf(q)), FindAll(db, q).value, WindowOf(q.page, q.limit));
  }

  /** A list response serving a window with a positive limit past its `totalPages` is empty. */
  lemma EmptyBeyondLast(db: Database, m: seq<Task>, r: TaskListResponse, w: Window)
    requires db.Valid() && forall t :: t in m ==> t.projectId in db.projects
    requires w.limit > 0 && w.skip >= 0 && w.skip == (w.page - 1) * w.limit
    requires IsPage(db, r.tasks, m, w.skip, w.limit)
    requires r.pagination.totalPages == TotalPages(|m|, w.limit) && w.page > r.pagination.totalPages
    ensures r.tasks == []
  {
    PageBeyondLastIsEmpty(m, w);
  }

  /** `findOne`: the task with its project, or "Task not found". */
  function FindOne(db: Database, id: string): (r: Result<TaskWithProject, Thrown>)
    reads db
    requires db.Valid()
    ensures r.Failure? <==> id !in db.tasks
    ensures r.Failure? ==> r.error == ErrorWith(TaskNotFound)
    ensures r.Success? ==> r.value.task == db.tasks[id] && r.value.project == db.projects[db.tasks[id].projectId]
  {
    if id !in db.tasks then Failure(ErrorWith(TaskNotFound))
    else Success(WithProject(db, db.tasks[id]))
  }

  /**
   * `create`: "Project not found" and no change when the project is missing;
   * otherwise a new row under a fresh id with `status || "OPEN"`, both
   * timestamps set to the current time.
   */
  method Create(db: Database, data: CreateTaskDto, newId: string, now: int) returns (r: Result<TaskWithProject, Thrown>)
    requires db.Valid() && newId !in db.tasks
    modifies db
    ensures db.Valid()
    ensures data.projectId !in old(db.projects) ==> r == Failure(ErrorWith(ProjectNotFound)) && unchanged(db)
    ensures data.projectId in old(db.projects) ==>
      && db.tasks == old(db.tasks)[newId := Task(newId, data.projectId, data.title, data.status.GetOr(OPEN), now, now)]
      && db.taskRows == old(db.taskRows) + [newId]
      && db.projects == old(db.projects) && db.projectRows == old(db.projectRows)
      && r == Success(WithProject(db, db.tasks[newId]))
  {
    if data.projectId !in db.projects {
      return Failure(ErrorWith(ProjectNotFound));
    }
    var task := Task(newId, data.projectId, data.title, data.status.GetOr(OPEN), now, now);
    EnumeratesAppend(db.taskRows, db.tasks.Keys, newId);
    db.tasks := db.tasks[newId := task];
    db.taskRows := db.taskRows + [newId];
    r := Success(WithProject(db, task));
  }

  /**
   * The task an update leaves behind: title and status each replaced only when
   * given; the project, the id and the creation time never change.
   */
  function Revised(t: Task, data: UpdateTaskDto, now: int): (u: Task)
    ensures u.id == t.id && u.projectId == t.projectId && u.createdAt == t.createdAt
    ensures u.title == if data.title.Some? then data.title.value else t.title
    ensures u.status == if data.status.Some? then data.status.value else t.status
    ensures u.updatedAt == now
  {
    Task(t.id, t.projectId, data.title.GetOr(t.title), data.status.GetOr(t.status), t.createdAt, now)
  }

  /** Applying the same update twice at the same time is the same as applying it once. */
  lemma RevisedIdempotent(t: Task, data: UpdateTaskDto, now: int)
    ensures Revised(Revised(t, data, now), data, now) == Revised(t, data, now)
  {
  }

  /**
   * `update`: "Task not found" and no change for a missing id; otherwise
   * `updateData` is built field by field and only that task row changes.
   */
  method Update(db: Database, id: string, data: UpdateTaskDto, now: int) returns (r: Result<TaskWithProject, Thrown>)
    requires db.Valid()
    modifies db
    ensures db.Valid()
    ensures id !in old(db.tasks) ==> r == Failure(ErrorWith(TaskNotFound)) && unchanged(db)
    ensures id in old(db.tasks) ==>
      && db.tasks == old(db.tasks)[id := Revised(old(db.tasks[id]), data, now)]
      && db.projects == old(db.projects)
      && db.projectRows == old(db.projectRows) && db.taskRows == old(db.taskRows)
      && r == Success(WithProject(db, db.tasks[id]))
  {
    if id !in db.tasks {
      return Failure(ErrorWith(TaskNotFound));
    }
    var existing := db.tasks[id];
    var title, status := existing.title, existing.status;
    if data.title.Some? {
      title := data.title.value;
    }
    if data.status.Some? {
      status := data.status.value;
    }
    var updated := existing.(title := title, status := status, updatedAt := now);
    assert updated == Revised(existing, data, now);
    assert updated.id == id && updated.projectId == existing.projectId;
    db.tasks := db.tasks[id := updated];
    r := Success(WithProject(db, updated));
  }

  /**
   * `delete`: "Task not found" and no change for a missing id; otherwise only
   * that row goes.
   */
  method Delete(db: Database, id: string) returns (r: Result<(), Thrown>)
    requires db.Valid()
    modifies db
    ensures db.Valid()
    ensures id !in old(db.tasks) ==> r == Failure(ErrorWith(TaskNotFound)) && unchanged(db)
    ensures id in old(db.tasks) ==>
      && r == Success(())
      && db.tasks == old(db.tasks) - {id}
      && db.taskRows == Keep(old(db.taskRows), db.tasks.Keys)
      && db.projects == old(db.projects) && db.projectRows == old(db.projectRows)
  {
    if id !in db.tasks {
      return Failure(ErrorWith(TaskNotFound));
    }
    var tasks := db.tasks - {id};
    EnumeratesKeep(db.taskRows, db.tasks.Keys, tasks.Keys);
    db.taskRows := Keep(db.taskRows, tasks.Keys);
    db.tasks := tasks;
    r := Success(());
  }
}
