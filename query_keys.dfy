/**
 * `QueryKeys`: the client's query-key factories for projects and tasks, and
 * the cache entries each successful mutation marks stale. A key is a list;
 * invalidating a key marks stale every cached entry whose key starts with it.
 */
module QueryKeys {
  import opened Common

  /** One element of a query key: a word, or the (possibly missing) list parameters. */
  datatype KeyPart = Word(word: string) | ParamsPart(params: Option<map<string, string>>)

  type Key = seq<KeyPart>

  const ProjectsRoot: Key := [Word("projects")]
  const TasksRoot: Key := [Word("tasks")]

  /** `lists()`: the root followed by "list". */
  function Lists(root: Key): (k: Key)
    ensures |k| == |root| + 1 && root <= k
  {
    root + [Word("list")]
  }

  /** `list(params)`: `lists()` followed by the parameters. */
  function List(root: Key, params: Option<map<string, string>>): (k: Key)
    ensures Lists(root) <= k && |k| == |root| + 2
  {
    Lists(root) + [ParamsPart(params)]
  }

  /** `details()`: the root followed by "detail". */
  function Details(root: Key): (k: Key)
    ensures |k| == |root| + 1 && root <= k
  {
    root + [Word("detail")]
  }

  /** `detail(id)`: `details()` followed by the id. */
  function Detail(root: Key, id: string): (k: Key)
    ensures Details(root) <= k && |k| == |root| + 2
  {
    Details(root) + [Word(id)]
  }

  /** The detail query runs only for a non-empty id (`enabled: !!id`). */
  function DetailEnabled(id: string): (enabled: bool)
    ensures enabled <==> |id| > 0
  {
    id != ""
  }

  /** No detail key lies under `lists()`, and no list key under `details()`. */
  lemma ListsAndDetailsAreApart(root: Key, id: string, params: Option<map<string, string>>)
    ensures !(Lists(root) <= Detail(root, id))
    ensures !(Details(root) <= List(root, params))
  {
    assert Detail(root, id)[|root|] == Word("detail");
    assert List(root, params)[|root|] == Word("list");
  }

  /** Project keys and task keys never lie under one another. */
  lemma RootsAreApart(k: Key)
    ensures ProjectsRoot <= k ==> !(TasksRoot <= k)
  {
    if ProjectsRoot <= k {
      assert k[0] == Word("projects");
    }
  }

  /** The cached entries a key invalidates: those whose key starts with it. */
  function Affected(cached: set<Key>, prefix: Key): (r: set<Key>)
    ensures r <= cached
    ensures forall k :: k in cached ==> (k in r <==> prefix <= k)
  {
    set k | k in cached && prefix <= k
  }

  /** Invalidating a longer key affects no more than invalidating a prefix of it. */
  lemma AffectedMonotone(cached: set<Key>, shorter: Key, longer: Key)
    requires shorter <= longer
    ensures Affected(cached, longer) <= Affected(cached, shorter)
  {
  }

  /** The query cache: the keys it holds and those marked stale. */
  class QueryCache {
    var cached: set<Key>
    var stale: set<Key>

    ghost predicate Valid()
      reads this
    {
      stale <= cached
    }

    constructor ()
      ensures Valid() && cached == {} && stale == {}
    {
      cached := {};
      stale := {};
    }

    /** `invalidateQueries({ queryKey })`. */
    method Invalidate(prefix: Key)
      requires Valid()
      modifies this
      ensures Valid()
      ensures cached == old(cached)
      ensures stale == old(stale) + Affected(cached, prefix)
    {
      stale := stale + Affected(cached, prefix);
    }

    /** Creating a project marks every project list stale, and nothing else. */
    method ProjectCreated()
      requires Valid()
      modifies this
      ensures Valid() && cached == old(cached)
      ensures stale == old(stale) + Affected(cached, Lists(ProjectsRoot))
    {
      Invalidate(Lists(ProjectsRoot));
    }

    /** Updating a project marks the project lists and that project's detail stale. */
    method ProjectUpdated(id: string)
      requires Valid()
      modifies this
      ensures Valid() && cached == old(cached)
      ensures stale == old(stale) + Affected(cached, Lists(ProjectsRoot)) + Affected(cached, Detail(ProjectsRoot, id))
    {
      Invalidate(Lists(ProjectsRoot));
      Invalidate(Detail(ProjectsRoot, id));
    }

    /** Deleting a project marks the project lists stale; its detail entry is not touched. */
    method ProjectDeleted(id: string)
      requires Valid()
      modifies this
      ensures Valid() && cached == old(cached)
      ensures stale == old(stale) + Affected(cached, Lists(ProjectsRoot))
      ensures Detail(ProjectsRoot, id) in stale <==> Detail(ProjectsRoot, id) in old(stale)
    {
      Invalidate(Lists(ProjectsRoot));
      ListsAndDetailsAreApart(ProjectsRoot, id, None);
    }

    /** Creating a task marks the task lists stale, and, for a non-empty project id, that project's task list. */
    method TaskCreated(projectId: string)
      requires Valid()
      modifies this
      ensures Valid() && cached == old(cached)
      ensures stale == old(stale) + Affected(cached, Lists(TasksRoot))
    {
      Invalidate(Lists(TasksRoot));
      if projectId != "" {
        var key := List(TasksRoot, Some(map["projectId" := projectId]));
        AffectedMonotone(cached, Lists(TasksRoot), key);
        Invalidate(key);
      }
    }

    /** Updating a task marks the task lists and that task's detail stale. */
    method TaskUpdated(id: string)
      requires Valid()
      modifies this
      ensures Valid() && cached == old(cached)
      ensures stale == old(stale) + Affected(cached, Lists(TasksRoot)) + Affected(cached, Detail(TasksRoot, id))
    {
      Invalidate(Lists(TasksRoot));
      Invalidate(Detail(TasksRoot, id));
    }

    /** Deleting a task marks the task lists stale; its detail entry is not touched. */
    method TaskDeleted(id: string)
      requires Valid()
      modifies this
      ensures Valid() && cached == old(cached)
      ensures stale == old(stale) + Affected(cached, Lists(TasksRoot))
      ensures Detail(TasksRoot, id) in stale <==> Detail(TasksRoot, id) in old(stale)
    {
      Invalidate(Lists(TasksRoot));
      ListsAndDetailsAreApart(TasksRoot, id, None);
    }
  }

  /**
   * Project mutations never mark a task entry stale: a deleted project's tasks
   * stay fresh in the cache even though the server removes them with it.
   */
  lemma ProjectListsMissTasks(cached: set<Key>, id: string)
    ensures forall k :: k in Affected(cached, Lists(ProjectsRoot)) + Affected(cached, Detail(ProjectsRoot, id)) ==>
      !(TasksRoot <= k)
  {
    forall k | k in Affected(cached, Lists(ProjectsRoot)) + Affected(cached, Detail(ProjectsRoot, id))
      ensures !(TasksRoot <= k)
    {
      assert k[0] == Word("projects");
    }
  }
}
