/**
 * `ValidationMiddleware`: run a schema over the request and either hand the
 * request on or answer 400 with one detail per issue. `validate` checks the
 * whole `{ body, query, params }` object and leaves the request alone;
 * `validateBody`, `validateQuery` and `validateParams` check one part and
 * put the parsed value in its place.
 *
 * The schema itself is a parameter: a function from the input to a parse
 * outcome, where `Crashed` is an exception that is not a validation error.
 */
module ValidationMiddleware {
  import opened Common
  import opened Strings
  import opened Schema
  import opened ApiResponse
  import ProjectDto

  /** What running a schema did: produced a value, raised a validation error with its issues, or threw something else. */
  datatype Parse<+T> = Parsed(value: T) | Rejected(issues: seq<Issue>) | Crashed

  /** A schema that returns either its output or its issues, seen as a parse outcome. */
  function FromResult<T>(r: Result<T, seq<Issue>>): (p: Parse<T>)
    ensures r.Success? <==> p.Parsed?
    ensures r.Success? ==> p.value == r.value
    ensures r.Failure? ==> p == Rejected(r.error)
  {
    match r
    case Success(v) => Parsed(v)
    case Failure(issues) => Rejected(issues)
  }

  /** How a path step is written: a key as itself, an index in decimal. */
  function SegmentText(s: PathSegment): (t: string)
    ensures s.Key? ==> t == s.name
    ensures s.Index? ==> t != [] && forall k :: 0 <= k < |t| ==> IsDigit(t[k])
  {
    match s
    case Key(name) => name
    case Index(i) => Decimal(i)
  }

  /** `path.join(".")`. */
  function PathText(path: seq<PathSegment>): (t: string)
    ensures path == [] ==> t == ""
    ensures |path| == 1 ==> t == SegmentText(path[0])
  {
    Join(seq(|path|, k requires 0 <= k < |path| => SegmentText(path[k])), ".")
  }

  /** The details of a validation error: one per issue, in order, with the joined path and the issue's message. */
  function Details(issues: seq<Issue>): (ds: seq<Detail>)
    ensures |ds| == |issues|
    ensures forall k :: 0 <= k < |issues| ==> ds[k] == Detail(PathText(issues[k].path), issues[k].message)
  {
    seq(|issues|, k requires 0 <= k < |issues| => Detail(PathText(issues[k].path), issues[k].message))
  }

  /** What the middleware does: call `next()`, or answer with a reply. */
  datatype Step = Next | Answer(reply: Response<JsonNull>)

  /** The reply to a parse outcome: pass on success, 400 for a validation error, 500 for anything else. */
  function Verdict<T>(p: Parse<T>): (s: Step)
    ensures s.Next? <==> p.Parsed?
    ensures s.Answer? ==> Consistent(s.reply) && s.reply.body.ErrorEnvelope?
    ensures p.Rejected? ==>
      && s.Answer? && s.reply.status == 400
      && s.reply.body.ErrorEnvelope?
      && s.reply.body.error == "Validation error" && s.reply.body.message == "Validation Error"
      && (s.reply.body.details.Some? <==> |p.issues| > 0)
      && (s.reply.body.details.Some? ==> s.reply.body.details.value == Details(p.issues))
    ensures p.Crashed? ==> s == Answer(InternalServerError())
  {
    match p
    case Parsed(_) => Next
    case Rejected(issues) => Answer(BadRequest("Validation error", "Validation Error", Some(Details(issues))))
    case Crashed => Answer(InternalServerError())
  }

  /**
   * A path of keys none of which holds a ".", joined and split again on ".",
   * gives back the keys: the detail path names the field unambiguously.
   */
  lemma {:induction false} KeyPathRecovered(path: seq<PathSegment>)
    requires |path| >= 1
    requires forall k :: 0 <= k < |path| ==> path[k].Key? && '.' !in path[k].name
    ensures var names := seq(|path|, k requires 0 <= k < |path| => path[k].name);
      Split(PathText(path), '.') == names
  {
    var names := seq(|path|, k requires 0 <= k < |path| => path[k].name);
    var texts := seq(|path|, k requires 0 <= k < |path| => SegmentText(path[k]));
    assert texts == names;
    SplitJoin(names, '.');
  }

  /**
   * A create-project body with an empty name is answered 400 with the single
   * detail `{ path: "body.name", message: "Name is required" }`.
   */
  lemma EmptyNameIsOneDetail()
    ensures var s := Verdict(FromResult(ProjectDto.CreateProjectSchema(map["name" := Str("")])));
      && s.Answer? && s.reply.status == 400
      && s.reply.body.details == Some([Detail("body.name", "Name is required")])
  {
    var body: Fields := map["name" := Str("")];
    assert Get(body, "name") == Str("") && Get(body, "description") == Undefined;
    assert Utf16Length("") == 0;
    var issue := Issue([Key("body"), Key("name")], "Name is required");
    assert StringIssues(ProjectDto.BodyPath("name"), ProjectDto.NameRule, Str("")) == [issue];
    assert StringIssues(ProjectDto.BodyPath("description"), ProjectDto.DescriptionRule, Undefined) == [];
    assert ProjectDto.CreateProjectSchema(body) == Failure([issue]);
    assert Details([issue]) == [Detail(PathText(issue.path), issue.message)];
    var texts := seq(2, k requires 0 <= k < 2 => SegmentText(issue.path[k]));
    assert texts == ["body", "name"];
    assert Join(["name"], ".") == "name";
    assert PathText(issue.path) == "body.name";
  }

  /** The parts of a request a schema can look at. */
  datatype RequestParts<+J> = RequestParts(body: J, query: J, params: J)

  /** An incoming request: its body, query and route parameters, all of which the validators may replace. */
  class Request<J> {
    var body: J
    var query: J
    var params: J

    constructor (body: J, query: J, params: J)
      ensures this.body == body && this.query == query && this.params == params
    {
      this.body := body;
      this.query := query;
      this.params := params;
    }

    function Parts(): (p: RequestParts<J>)
      reads this
      ensures p.body == body && p.query == query && p.params == params
    {
      RequestParts(body, query, params)
    }
  }

  /** `validate(schema)`: parses `{ body, query, params }`; the request is never written, whatever the outcome. */
  method Validate<J>(req: Request<J>, schema: RequestParts<J> -> Parse<RequestParts<J>>) returns (s: Step)
    ensures s == Verdict(schema(req.Parts()))
  {
    var outcome := schema(RequestParts(req.body, req.query, req.params));
    s := Verdict(outcome);
  }

  /** `validateBody(schema)`: on success the body becomes the parsed value; on failure the request is left alone. */
  method ValidateBody<J>(req: Request<J>, schema: J -> Parse<J>) returns (s: Step)
    modifies req
    ensures s == Verdict(schema(old(req.body)))
    ensures s.Next? ==> req.body == schema(old(req.body)).value && req.query == old(req.query) && req.params == old(req.params)
    ensures s.Answer? ==> unchanged(req)
  {
    var outcome := schema(req.body);
    if outcome.Parsed? {
      req.body := outcome.value;
    }
    s := Verdict(outcome);
  }

  /** `validateQuery(schema)`: on success the query becomes the parsed value; on failure the request is left alone. */
  method ValidateQuery<J>(req: Request<J>, schema: J -> Parse<J>) returns (s: Step)
    modifies req
    ensures s == Verdict(schema(old(req.query)))
    ensures s.Next? ==> req.query == schema(old(req.query)).value && req.body == old(req.body) && req.params == old(req.params)
    ensures s.Answer? ==> unchanged(req)
  {
    var outcome := schema(req.query);
    if outcome.Parsed? {
      req.query := outcome.value;
    }
    s := Verdict(outcome);
  }

  /** `validateParams(schema)`: on success the params become the parsed value; on failure the request is left alone. */
  method ValidateParams<J>(req: Request<J>, schema: J -> Parse<J>) returns (s: Step)
    modifies req
    ensures s == Verdict(schema(old(req.params)))
    ensures s.Next? ==> req.params == schema(old(req.params)).value && req.body == old(req.body) && req.query == old(req.query)
    ensures s.Answer? ==> unchanged(req)
  {
    var outcome := schema(req.params);
    if outcome.Parsed? {
      req.params := outcome.value;
    }
    s := Verdict(outcome);
  }
}
