/**
 * The server's project request schemas: `createProjectSchema` and
 * `updateProjectSchema` check the request `body`, `queryProjectsSchema` the
 * request `query`. Each parse either yields the DTO or the list of issues,
 * with paths starting at `body` or `query` as in the `{ body, query, params }`
 * object the validation middleware hands to the schema.
 */
module ProjectDto {
  import opened Common
  import opened Strings
  import opened Domain
  import opened Schema
  import opened Pagination

  datatype CreateProjectDto = CreateProjectDto(name: string, description: Option<string>)
  datatype UpdateProjectDto = UpdateProjectDto(name: Option<string>, description: Patch<string>)
  datatype QueryProjectsDto = QueryProjectsDto(page: QueryNumber, limit: QueryNumber, name: Option<string>)

  /** `ProjectListResponse`: one page of projects and its pagination block. */
  datatype ProjectListResponse = ProjectListResponse(projects: seq<ProjectWithTasks>, pagination: PaginationMeta)

  const NameRule := StringRule(1, "Name is required", Some(200), "Name must be less than 200 characters", false, false)
  const DescriptionRule := StringRule(0, "", Some(1000), "Description must be less than 1000 characters", true, false)
  const OptionalString := StringRule(0, "", None, "", true, false)

  function BodyPath(key: string): seq<PathSegment> { [Key("body"), Key(key)] }
  function QueryPath(key: string): seq<PathSegment> { [Key("query"), Key(key)] }

  /** A name of 1 to 200 UTF-16 units. */
  predicate ValidName(s: string) {
    1 <= Utf16Length(s) <= 200
  }

  /** A description of at most 1000 UTF-16 units. */
  predicate ValidDescription(s: string) {
    Utf16Length(s) <= 1000
  }

  /**
   * `createProjectSchema`: a name is required; the description may be left out
   * but may not be `null`.
   */
  function CreateProjectSchema(body: Fields): (r: Result<CreateProjectDto, seq<Issue>>)
    ensures var name, description := Get(body, "name"), Get(body, "description");
      r.Success? <==>
        && name.Str? && ValidName(name.s)
        && (description.Undefined? || (description.Str? && ValidDescription(description.s)))
    ensures r.Success? ==>
      && Get(body, "name") == Str(r.value.name)
      && r.value.description == StringOf(Get(body, "description"))
    ensures r.Failure? ==> |r.error| > 0
  {
    var name, description := Get(body, "name"), Get(body, "description");
    var issues := StringIssues(BodyPath("name"), NameRule, name)
                  + StringIssues(BodyPath("description"), DescriptionRule, description);
    if issues == [] then Success(CreateProjectDto(name.s, StringOf(description)))
    else Failure(issues)
  }

  /**
   * `updateProjectSchema`: every field may be left out; a given name still has
   * 1 to 200 units; the description may also be `null`.
   */
  function UpdateProjectSchema(body: Fields): (r: Result<UpdateProjectDto, seq<Issue>>)
    ensures var name, description := Get(body, "name"), Get(body, "description");
      r.Success? <==>
        && (name.Undefined? || (name.Str? && ValidName(name.s)))
        && (description.Undefined? || description.Null? || (description.Str? && ValidDescription(description.s)))
    ensures r.Success? ==>
      && r.value.name == StringOf(Get(body, "name"))
      && (Get(body, "description").Undefined? <==> r.value.description.Omitted?)
      && (Get(body, "description").Null? <==> r.value.description.ToNull?)
      && (r.value.description.Given? ==> Get(body, "description") == Str(r.value.description.value))
    ensures r.Failure? ==> |r.error| > 0
  {
    var name, description := Get(body, "name"), Get(body, "description");
    var issues := StringIssues(BodyPath("name"), NameRule.(optional := true), name)
                  + StringIssues(BodyPath("description"), DescriptionRule.(nullable := true), description);
    if issues == [] then Success(UpdateProjectDto(StringOf(name), PatchOf(description)))
    else Failure(issues)
  }

  /**
   * `queryProjectsSchema`: `page` and `limit` are optional strings turned into
   * numbers by `val ? parseInt(val, 10) : undefined`; `name` is an optional string.
   */
  function QueryProjectsSchema(query: Fields): (r: Result<QueryProjectsDto, seq<Issue>>)
    ensures r.Success? <==>
      forall key :: key in ["page", "limit", "name"] ==> Get(query, key).Undefined? || Get(query, key).Str?
    ensures r.Success? ==>
      && r.value.page == QueryTransform(StringOf(Get(query, "page")))
      && r.value.limit == QueryTransform(StringOf(Get(query, "limit")))
      && r.value.name == StringOf(Get(query, "name"))
  {
    var page, limit, name := Get(query, "page"), Get(query, "limit"), Get(query, "name");
    var issues := StringIssues(QueryPath("page"), OptionalString, page)
                  + StringIssues(QueryPath("limit"), OptionalString, limit)
                  + StringIssues(QueryPath("name"), OptionalString, name);
    if issues == [] then
      Success(QueryProjectsDto(QueryTransform(StringOf(page)), QueryTransform(StringOf(limit)), StringOf(name)))
    else Failure(issues)
  }

  /** The issues of a create body whose name is empty and whose description is `null`, in key order. */
  lemma CreateProjectIssuesInOrder()
    ensures CreateProjectSchema(map["name" := Str(""), "description" := Null])
      == Failure([Issue([Key("body"), Key("name")], "Name is required"),
                  Issue([Key("body"), Key("description")], "Expected string, received null")])
  {
    var body := map["name" := Str(""), "description" := Null];
    assert Get(body, "name") == Str("") && Get(body, "description") == Null;
    assert Utf16Length("") == 0;
    assert StringIssues(BodyPath("name"), NameRule, Str("")) == [Issue(BodyPath("name"), "Name is required")];
    assert "Expected " + "string" + ", received " + "null" == "Expected string, received null";
    assert StringIssues(BodyPath("description"), DescriptionRule, Null)
      == [Issue(BodyPath("description"), "Expected string, received null")];
    var issues := StringIssues(BodyPath("name"), NameRule, Get(body, "name"))
                  + StringIssues(BodyPath("description"), DescriptionRule, Get(body, "description"));
    assert issues == [Issue(BodyPath("name"), "Name is required"), Issue(BodyPath("description"), "Expected string, received null")];
    assert CreateProjectSchema(body) == Failure(issues);
  }
}
