/**
 * The database the two services share: a project table and a task table,
 * each a map from id to row, together with the physical order of the rows
 * (ids in insertion order), which decides the order of rows whose
 * `createdAt` is equal.
 */
module Store {
  import opened Common
  import opened Domain
  import opened Query

  /** `rows` lists every key of a table exactly once. */
  ghost predicate Enumerates(rows: seq<string>, keys: set<string>) {
    Distinct(rows) && forall k :: k in keys <==> k in rows
  }

  /** Every row is stored under its own id. */
  ghost predicate KeyedBy<V(!new)>(table: map<string, V>, idOf: V -> string) {
    forall k :: k in table ==> idOf(table[k]) == k
  }

  /** A full table scan: the rows in physical order. */
  function RowsOf<V>(ids: seq<string>, table: map<string, V>): (r: seq<V>)
    requires forall k :: k in ids ==> k in table
    ensures |r| == |ids|
    ensures forall i :: 0 <= i < |ids| ==> r[i] == table[ids[i]]
  {
    if ids == [] then [] else [table[ids[0]]] + RowsOf(ids[1..], table)
  }

  /** A scan holds every stored row once and nothing else. */
  lemma ScanContents<V(!new)>(ids: seq<string>, table: map<string, V>, idOf: V -> string)
    requires Enumerates(ids, table.Keys) && KeyedBy(table, idOf)
    ensures forall v :: v in RowsOf(ids, table) <==> idOf(v) in table && table[idOf(v)] == v
    ensures Distinct(RowsOf(ids, table))
  {
    var r := RowsOf(ids, table);
    forall v ensures v in r <==> idOf(v) in table && table[idOf(v)] == v {
      if idOf(v) in table && table[idOf(v)] == v {
        var i :| 0 <= i < |ids| && ids[i] == idOf(v);
        assert r[i] == v;
      }
    }
    DistinctIffPairwise(ids);
    DistinctIffPairwise(r);
    forall i, j | 0 <= i < j < |r| ensures r[i] != r[j] {
      assert idOf(r[i]) == ids[i] && idOf(r[j]) == ids[j];
    }
  }

  /** Appending a fresh id keeps the enumeration. */
  lemma EnumeratesAppend(rows: seq<string>, keys: set<string>, id: string)
    requires Enumerates(rows, keys) && id !in keys
    ensures Enumerates(rows + [id], keys + {id})
  {
    assert forall y :: multiset(rows + [id])[y] == multiset(rows)[y] + multiset([id])[y];
    assert multiset(rows)[id] == 0;
  }

  /** The row order after the rows outside `kept` are deleted. */
  function Keep(rows: seq<string>, kept: set<string>): seq<string> {
    Filter(rows, k => k in kept)
  }

  /** Dropping the ids that leave the table keeps the enumeration. */
  lemma EnumeratesKeep(rows: seq<string>, keys: set<string>, kept: set<string>)
    requires Enumerates(rows, keys) && kept <= keys
    ensures Enumerates(Keep(rows, kept), kept)
  {
    FilterKeepsDistinct(rows, k => k in kept);
  }

  /** A project that no task points at has no tasks. */
  lemma NoTasksOf(db: Database, projectId: string)
    requires db.Valid()
    requires forall k :: k in db.tasks ==> db.tasks[k].projectId != projectId
    ensures db.TasksOf(projectId) == []
  {
    var r := db.TasksOf(projectId);
    if r != [] {
      assert false;
    }
  }

  class Database {
    var projects: map<string, Project>
    var tasks: map<string, Task>
    var projectRows: seq<string>
    var taskRows: seq<string>

    /**
     * The row orders list the tables, rows sit under their own ids, and every
     * task belongs to a project that exists.
     */
    ghost predicate Valid()
      reads this
    {
      && Enumerates(projectRows, projects.Keys)
      && Enumerates(taskRows, tasks.Keys)
      && KeyedBy(projects, ProjectId)
      && KeyedBy(tasks, TaskId)
      && forall k :: k in tasks ==> tasks[k].projectId in projects
    }

    constructor ()
      ensures Valid()
      ensures projects == map[] && tasks == map[]
    {
      projects, tasks := map[], map[];
      projectRows, taskRows := [], [];
    }

    /** All projects, in physical order. */
    function ProjectScan(): (r: seq<Project>)
      reads this
      requires Valid()
      ensures forall p :: p in r <==> p.id in projects && projects[p.id] == p
      ensures Distinct(r)
    {
      ScanContents(projectRows, projects, ProjectId);
      RowsOf(projectRows, projects)
    }

    /** All tasks, in physical order. */
    function TaskScan(): (r: seq<Task>)
      reads this
      requires Valid()
      ensures forall t :: t in r <==> t.id in tasks && tasks[t.id] == t
      ensures Distinct(r)
    {
      ScanContents(taskRows, tasks, TaskId);
      RowsOf(taskRows, tasks)
    }

    /** The tasks of one project, newest first (`include: { tasks: { orderBy: { createdAt: "desc" } } }`). */
    function TasksOf(projectId: string): (r: seq<Task>)
      reads this
      requires Valid()
      ensures NewestFirst(r, TaskCreated)
      ensures forall t :: t in r <==> t.id in tasks && tasks[t.id] == t && t.projectId == projectId
      ensures Distinct(r)
    {
      var scan := TaskScan();
      var mine := Filter(scan, (t: Task) => t.projectId == projectId);
      FilterKeepsDistinct(scan, (t: Task) => t.projectId == projectId);
      SortedMembers(mine, TaskCreated);
      SortNewest(mine, TaskCreated)
    }
  }
}
