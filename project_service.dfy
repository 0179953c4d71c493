/**
 * `ProjectService` over the shared database. Each call is one atomic step:
 * the existence check and the write it guards happen together. The id the
 * database generates and its clock are parameters.
 */
module ProjectService {
  import opened Common
  import opened Strings
  import opened Domain
  import opened Query
  import opened Store
  import opened Pagination
  import opened ProjectDto

  const ProjectNotFound: string := "Project not found"

  /**
   * What the database throws for a negative `skip`. Its wording is the
   * database's own and is not modelled; it is not one of the service's
   * "not found" messages.
   */
  const InvalidWindow: string := "Invalid findMany invocation"

  /**
   * The `where` object of `findAll`: a case-insensitive name filter when the
   * query name is truthy (present and not empty), no filter otherwise.
   */
  predicate Selected(name: Option<string>, p: Project) {
    name.None? || name.value == "" || ContainsIgnoringCase(p.name, name.value)
  }

  /** A missing or empty filter selects every project; otherwise the lowered filter must occur in the lowered name. */
  lemma SelectedIff(name: Option<string>, p: Project)
    ensures name.None? || name.value == "" ==> Selected(name, p)
    ensures name.Some? && name.value != "" ==>
      (Selected(name, p) <==> exists i: nat :: OccursAt(LowerAll(p.name), LowerAll(name.value), i))
  {
    if name.Some? {
      ContainsIgnoringCaseIff(p.name, name.value);
    }
  }

  /** The projects `where` selects, newest first; rows with equal timestamps keep their physical order. */
  function Matching(db: Database, name: Option<string>): (r: seq<Project>)
    reads db
    requires db.Valid()
    ensures forall p :: p in r <==> p.id in db.projects && db.projects[p.id] == p && Selected(name, p)
    ensures Distinct(r)
    ensures NewestFirst(r, ProjectCreated)
  {
    var scan := db.ProjectScan();
    var kept := Filter(scan, p => Selected(name, p));
    FilterKeepsDistinct(scan, p => Selected(name, p));
    SortedMembers(kept, ProjectCreated);
    SortNewest(kept, ProjectCreated)
  }

  /** A project together with its tasks, newest first (`include: { tasks: { orderBy: { createdAt: "desc" } } }`). */
  function WithTasks(db: Database, p: Project): (r: ProjectWithTasks)
    reads db
    requires db.Valid()
    ensures r.project == p
    ensures NewestFirst(r.tasks, TaskCreated)
    ensures forall t :: t in r.tasks <==> t.id in db.tasks && db.tasks[t.id] == t && t.projectId == p.id
  {
    ProjectWithTasks(p, db.TasksOf(p.id))
  }

  function AllWithTasks(db: Database, ps: seq<Project>): (r: seq<ProjectWithTasks>)
    reads db
    requires db.Valid()
    ensures |r| == |ps|
    ensures forall i :: 0 <= i < |ps| ==> r[i] == WithTasks(db, ps[i])
  {
    seq(|ps|, i requires 0 <= i < |ps| && db.Valid() reads db => WithTasks(db, ps[i]))
  }

  /**
   * `findAll`: one page of the selected projects, newest first, with their
   * tasks; `total` counts every selected project and `totalPages` is
   * `ceil(total / limit)`. A negative `skip` makes the database throw; a
   * negative `take` (a negative limit) serves rows from the end of the list.
   */
  function FindAll(db: Database, q: QueryProjectsDto): (r: Result<ProjectListResponse, Thrown>)
    reads db
    requires db.Valid()
    ensures var w := WindowOf(q.page, q.limit);
      r.Failure? <==> w.skip < 0
    ensures r.Failure? ==> r.error.message != ProjectNotFound
    ensures r.Success? ==>
      var w, m := WindowOf(q.page, q.limit), Matching(db, q.name);
      && r.value.pagination.page == w.page
      && r.value.pagination.limit == w.limit
      && r.value.pagination.total == |m|
      && r.value.pagination.totalPages == TotalPages(|m|, w.limit)
  {
    var w := WindowOf(q.page, q.limit);
    if w.skip < 0 then Failure(ErrorWith(InvalidWindow))
    else
      var m := Matching(db, q.name);
      Success(ProjectListResponse(AllWithTasks(db, Served(m, w.skip, w.limit)), Meta(w, |m|)))
  }

  /**
   * `page` is what `findMany({ skip, take })` serves from `rows`, each project
   * with its tasks: item `i` is the row at `ServedStart + i`.
   */
  ghost predicate IsPage(db: Database, page: seq<ProjectWithTasks>, rows: seq<Project>, skip: nat, take: int)
    reads db
    requires db.Valid()
  {
    && |page| == ServedCount(|rows|, skip, take)
    && forall i :: 0 <= i < |page| ==>
         ServedStart(|rows|, skip, take) + i < |rows| && page[i] == WithTasks(db, rows[ServedStart(|rows|, skip, take) + i])
  }

  lemma PageRows(db: Database, rows: seq<Project>, skip: nat, take: int, page: seq<ProjectWithTasks>)
    requires db.Valid()
    requires page == AllWithTasks(db, Served(rows, skip, take))
    ensures IsPage(db, page, rows, skip, take)
  {
    var served, s := Served(rows, skip, take), ServedStart(|rows|, skip, take);
    forall i | 0 <= i < |page|
      ensures s + i < |rows| && page[i] == WithTasks(db, rows[s + i])
    {
      assert page[i] == WithTasks(db, served[i]);
    }
  }

  /**
   * The projects `findAll` serves are a run of consecutive selected projects,
   * newest first, each with its tasks: `[skip, skip + limit)` for a positive
   * limit, and for a negative limit the `-limit` projects that end `skip` before
   * the end (see `ServedStart` and `ServedCount`).
   */
  lemma FindAllServesSlice(db: Database, q: QueryProjectsDto)
    requires db.Valid()
    requires FindAll(db, q).Success?
    ensures WindowOf(q.page, q.limit).skip >= 0
    ensures IsPage(db, FindAll(db, q).value.projects, Matching(db, q.name), WindowOf(q.page, q.limit).skip, WindowOf(q.page, q.limit).limit)
  {
    var w, m := WindowOf(q.page, q.limit), Matching(db, q.name);
    assert w.skip >= 0;
    var skip: nat := w.skip;
    assert FindAll(db, q).value.projects == AllWithTasks(db, Served(m, skip, w.limit));
    PageRows(db, m, skip, w.limit, FindAll(db, q).value.projects);
  }

  /** A page holds `|limit|` projects unless the selection runs out before it is full. */
  lemma FindAllPageSize(db: Database, q: QueryProjectsDto)
    requires db.Valid()
    requires FindAll(db, q).Success?
    ensures var w, m, page := WindowOf(q.page, q.limit), Matching(db, q.name), FindAll(db, q).value.projects;
      && |page| <= Abs(w.limit)
      && (|page| < Abs(w.limit) ==> w.skip + |page| >= |m|)
  {
    FindAllServesSlice(db, q);
  }

  /**
   * With a positive limit, a page past `totalPages` holds no projects. (With a
   * negative limit `totalPages` is at most zero while pages still serve rows.)
   */
  lemma PageBeyondLastHasNoProjects(db: Database, q: QueryProjectsDto)
    requires db.Valid()
    requires FindAll(db, q).Success?
    requires WindowOf(q.page, q.limit).limit > 0
    requires WindowOf(q.page, q.limit).page > FindAll(db, q).value.pagination.totalPages
    ensures FindAll(db, q).value.projects == []
  {
    FindAllServesSlice(db, q);
    EmptyBeyondLast(db, Matching(db, q.name), FindAll(db, q).value, WindowOf(q.page, q.limit));
  }

  /** A list response serving a window with a positive limit past its `totalPages` is empty. */
  lemma EmptyBeyondLast(db: Database, m: seq<Project>, r: ProjectListResponse, w: Window)
    requires db.Valid()
    requires w.limit > 0 && w.skip >= 0 && w.skip == (w.page - 1) * w.limit
    requires IsPage(db, r.projects, m, w.skip, w.limit)
    requires r.pagination.totalPages == TotalPages(|m|, w.limit) && w.page > r.pagination.totalPages
    ensures r.projects == []
  {
    PageBeyondLastIsEmpty(m, w);
  }

  /**
   * Every selected project is served: the query for page `i / limit + 1`
   * succeeds, that page is within `totalPages`, and it holds the `i`-th
   * selected project (newest first).
   */
  lemma EveryMatchIsServed(db: Database, q: QueryProjectsDto, i: nat)
    requires db.Valid()
    requires OrDefault(q.limit, DefaultLimit) > 0
    requires i < |Matching(db, q.name)|
    requires q.page == Num(i / OrDefault(q.limit, DefaultLimit) + 1)
    ensures FindAll(db, q).Success?
    ensures WindowOf(q.page, q.limit).page <= FindAll(db, q).value.pagination.totalPages
    ensures WithTasks(db, Matching(db, q.name)[i]) in FindAll(db, q).value.projects
  {
    WindowServingRow(Matching(db, q.name), q.limit, i);
    FindAllServesSlice(db, q);
    ListServesRow(db, Matching(db, q.name), FindAll(db, q).value, q.limit, i);
  }

  /**
   * A list response that serves the window asking for row `i`'s page counts
   * that page and holds the row.
   */
  lemma ListServesRow(db: Database, m: seq<Project>, r: ProjectListResponse, limit: QueryNumber, i: nat)
    requires db.Valid()
    requires OrDefault(limit, DefaultLimit) > 0 && i < |m|
    requires var w := WindowOf(Num(i / OrDefault(limit, DefaultLimit) + 1), limit);
      && w.skip >= 0
      && IsPage(db, r.projects, m, w.skip, w.limit)
      && r.pagination.totalPages == TotalPages(|m|, w.limit)
    ensures WindowOf(Num(i / OrDefault(limit, DefaultLimit) + 1), limit).page <= r.pagination.totalPages
    ensures WithTasks(db, m[i]) in r.projects
  {
    var l := OrDefault(limit, DefaultLimit);
    var w := WindowOf(Num(i / l + 1), limit);
    WindowServingRow(m, limit, i);
    ServedOnPage(db, r.projects, m, w.skip, w.limit, i % l);
  }

  /** Item `k` of a page, when the page has one, is the row at `ServedStart + k`. */
  lemma ServedOnPage(db: Database, page: seq<ProjectWithTasks>, rows: seq<Project>, skip: nat, take: int, k: nat)
    requires db.Valid() && IsPage(db, page, rows, skip, take)
    requires k < ServedCount(|rows|, skip, take)
    ensures ServedStart(|rows|, skip, take) + k < |rows|
    ensures WithTasks(db, rows[ServedStart(|rows|, skip, take) + k]) in page
  {
    assert page[k] == WithTasks(db, rows[ServedStart(|rows|, skip, take) + k]);
  }

  /** `findOne`: the project with its tasks, or "Project not found". */
  function FindOne(db: Database, id: string): (r: Result<ProjectWithTasks, Thrown>)
    reads db
    requires db.Valid()
    ensures r.Failure? <==> id !in db.projects
    ensures r.Failure? ==> r.error == ErrorWith(ProjectNotFound)
    ensures r.Success? ==> r.value == WithTasks(db, db.projects[id])
  {
    if id !in db.projects then Failure(ErrorWith(ProjectNotFound))
    else Success(WithTasks(db, db.projects[id]))
  }

  /**
   * `create`: a new row under a fresh id, with `description ?? null` (a missing
   * description is stored as null) and no tasks.
   */
  method Create(db: Database, data: CreateProjectDto, newId: string, now: int) returns (r: ProjectWithTasks)
    requires db.Valid() && newId !in db.projects
    modifies db
    ensures db.Valid()
    ensures db.projects == old(db.projects)[newId := Project(newId, data.name, data.description, now)]
    ensures db.tasks == old(db.tasks) && db.taskRows == old(db.taskRows)
    ensures db.projectRows == old(db.projectRows) + [newId]
    ensures db.TasksOf(newId) == []
    ensures r == WithTasks(db, db.projects[newId])
  {
    var project := Project(newId, data.name, data.description, now);
    EnumeratesAppend(db.projectRows, db.projects.Keys, newId);
    db.projects := db.projects[newId := project];
    db.projectRows := db.projectRows + [newId];
    assert db.Valid();
    NoTasksOf(db, newId);
    r := ProjectWithTasks(project, []);
  }

  /**
   * The project an update leaves behind: the name only when given; the
   * description kept when left out, cleared by `null`, replaced otherwise.
   */
  function Patched(p: Project, data: UpdateProjectDto): (q: Project)
    ensures q.id == p.id && q.createdAt == p.createdAt
    ensures q.name == if data.name.Some? then data.name.value else p.name
    ensures data.description.Omitted? ==> q.description == p.description
    ensures data.description.ToNull? ==> q.description.None?
    ensures data.description.Given? ==> q.description == Some(data.description.value)
  {
    Project(p.id, data.name.GetOr(p.name),
            match data.description
            case Omitted => p.description
            case ToNull => None
            case Given(d) => Some(d),
            p.createdAt)
  }

  /** Applying the same update twice is the same as applying it once. */
  lemma PatchedIdempotent(p: Project, data: UpdateProjectDto)
    ensures Patched(Patched(p, data), data) == Patched(p, data)
  {
  }

  /** An update that gives nothing changes nothing. */
  lemma EmptyPatchIsIdentity(p: Project)
    ensures Patched(p, UpdateProjectDto(None, Omitted)) == p
  {
  }

  /**
   * `update`: "Project not found" and no change for a missing id; otherwise
   * `updateData` is built field by field and only that project row changes.
   */
  method Update(db: Database, id: string, data: UpdateProjectDto) returns (r: Result<ProjectWithTasks, Thrown>)
    requires db.Valid()
    modifies db
    ensures db.Valid()
    ensures id !in old(db.projects) ==> r == Failure(ErrorWith(ProjectNotFound)) && unchanged(db)
    ensures id in old(db.projects) ==>
      && db.projects == old(db.projects)[id := Patched(old(db.projects[id]), data)]
      && db.tasks == old(db.tasks)
      && db.projectRows == old(db.projectRows) && db.taskRows == old(db.taskRows)
      && r == Success(WithTasks(db, db.projects[id]))
  {
    if id !in db.projects {
      return Failure(ErrorWith(ProjectNotFound));
    }
    var existing := db.projects[id];
    var name, description := existing.name, existing.description;
    if data.name.Some? {
      name := data.name.value;
    }
    match data.description {
      case Omitted =>
      case ToNull => description := None;
      case Given(d) => description := Some(d);
    }
    var updated := existing.(name := name, description := description);
    assert updated == Patched(existing, data);
    assert updated.id == id;
    db.projects := db.projects[id := updated];
    r := Success(WithTasks(db, updated));
  }

  /** The task table once a project's tasks are removed with it. */
  function TasksWithout(tasks: map<string, Task>, projectId: string): (r: map<string, Task>)
    ensures r.Keys <= tasks.Keys
    ensures forall k :: k in r <==> k in tasks && tasks[k].projectId != projectId
    ensures forall k :: k in r ==> r[k] == tasks[k]
  {
    map k | k in tasks && tasks[k].projectId != projectId :: tasks[k]
  }

  /**
   * `delete`: "Project not found" and no change for a missing id; otherwise the
   * row goes, and its tasks go with it (the foreign key cascades). Every other
   * project and every task of another project stays as it was.
   */
  method Delete(db: Database, id: string) returns (r: Result<(), Thrown>)
    requires db.Valid()
    modifies db
    ensures db.Valid()
    ensures id !in old(db.projects) ==> r == Failure(ErrorWith(ProjectNotFound)) && unchanged(db)
    ensures id in old(db.projects) ==>
      && r == Success(())
      && db.projects == old(db.projects) - {id}
      && db.tasks == TasksWithout(old(db.tasks), id)
      && db.projectRows == Keep(old(db.projectRows), db.projects.Keys)
      && db.taskRows == Keep(old(db.taskRows), db.tasks.Keys)
  {
    if id !in db.projects {
      return Failure(ErrorWith(ProjectNotFound));
    }
    var projects := db.projects - {id};
    var tasks := TasksWithout(db.tasks, id);
    EnumeratesKeep(db.projectRows, db.projects.Keys, projects.Keys);
    EnumeratesKeep(db.taskRows, db.tasks.Keys, tasks.Keys);
    db.projectRows := Keep(db.projectRows, projects.Keys);
    db.taskRows := Keep(db.taskRows, tasks.Keys);
    db.projects, db.tasks := projects, tasks;
    r := Success(());
  }
}
