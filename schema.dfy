/**
 * The part of the schema library the DTOs use, as functions from a request
 * field to the list of issues it raises: `z.string()` with `.min`, `.max`,
 * `.optional()` and `.nullable()`, and `z.nativeEnum(TaskStatus)`.
 * An object schema checks its keys in declaration order and collects every
 * issue; each issue carries the path of the offending field.
 */
module Schema {
  import opened Common
  import opened Strings
  import opened Domain

  /**
   * A field of a parsed JSON object or query string; a missing key reads as
   * `Undefined`. A `Number` carries the text JavaScript renders it as
   * (`String(n)`); `Other` is any other JSON value (a boolean, an array, an
   * object) with the type name the library reports for it.
   */
  datatype Value = Undefined | Null | Str(s: string) | Number(text: string) | Other(typeName: string)

  /** The keys of a request object that carry a value. */
  type Fields = map<string, Value>

  function Get(obj: Fields, key: string): Value {
    if key in obj then obj[key] else Undefined
  }

  /** A step of an issue path: an object key or an array index. */
  datatype PathSegment = Key(name: string) | Index(i: nat)

  /** One validation issue: where it is and what is wrong. */
  datatype Issue = Issue(path: seq<PathSegment>, message: string)

  /** The type name the schema library reports for a value it did not expect. */
  function TypeName(v: Value): string {
    match v
    case Undefined => "undefined"
    case Null => "null"
    case Str(_) => "string"
    case Number(_) => "number"
    case Other(t) => t
  }

  /** The library's own message for a value of the wrong type. */
  function InvalidType(path: seq<PathSegment>, expected: string, v: Value): Issue {
    Issue(path, if v.Undefined? then "Required" else "Expected " + expected + ", received " + TypeName(v))
  }

  /**
   * `z.string().min(min, minMessage).max(max, maxMessage)`, possibly wrapped in
   * `.optional()` and `.nullable()`. A `min` of 0 stands for no `.min` check.
   */
  datatype StringRule = StringRule(min: nat, minMessage: string, max: Option<nat>, maxMessage: string,
                                   optional: bool, nullable: bool)

  /** The issues a string rule raises for one field. Lengths are UTF-16 lengths. */
  function StringIssues(path: seq<PathSegment>, rule: StringRule, v: Value): (r: seq<Issue>)
    ensures r == [] <==>
      || (v.Undefined? && rule.optional)
      || (v.Null? && rule.nullable)
      || (v.Str? && rule.min <= Utf16Length(v.s) && (rule.max.None? || Utf16Length(v.s) <= rule.max.value))
    ensures forall k :: 0 <= k < |r| ==> r[k].path == path
  {
    match v
    case Undefined => if rule.optional then [] else [InvalidType(path, "string", v)]
    case Null => if rule.nullable then [] else [InvalidType(path, "string", v)]
    case Number(_) => [InvalidType(path, "string", v)]
    case Other(_) => [InvalidType(path, "string", v)]
    case Str(s) =>
      (if Utf16Length(s) < rule.min then [Issue(path, rule.minMessage)] else [])
      + (if rule.max.Some? && Utf16Length(s) > rule.max.value then [Issue(path, rule.maxMessage)] else [])
  }

  const StatusChoices: string := "'OPEN' | 'IN_PROGRESS' | 'DONE'"

  /** The library's message for a string or number that is not one of the enum's values. */
  function InvalidEnum(received: string): string {
    "Invalid enum value. Expected " + StatusChoices + ", received '" + received + "'"
  }

  /**
   * The issues `z.nativeEnum(TaskStatus)` (with `.optional()` when `optional`)
   * raises for one field. Strings and numbers pass the type test and are then
   * looked up among the values; every other type fails the type test.
   */
  function StatusIssues(path: seq<PathSegment>, optional: bool, v: Value): (r: seq<Issue>)
    ensures r == [] <==> (v.Undefined? && optional) || (v.Str? && ParseStatus(v.s).Some?)
    ensures |r| <= 1
    ensures v.Str? && ParseStatus(v.s).None? ==> r == [Issue(path, InvalidEnum(v.s))]
    ensures v.Number? ==> r == [Issue(path, InvalidEnum(v.text))]
    ensures v.Null? || v.Other? ==> r == [Issue(path, "Expected " + StatusChoices + ", received " + TypeName(v))]
  {
    match v
    case Undefined => if optional then [] else [InvalidType(path, "string", v)]
    case Str(s) => if ParseStatus(s).Some? then [] else [Issue(path, InvalidEnum(s))]
    case Number(n) => [Issue(path, InvalidEnum(n))]
    case _ => [Issue(path, "Expected " + StatusChoices + ", received " + TypeName(v))]
  }

  /** The string a field holds, if it holds one. */
  function StringOf(v: Value): Option<string> {
    if v.Str? then Some(v.s) else None
  }

  /** The field as a partial-update value: missing, `null`, or a string. */
  function PatchOf(v: Value): Patch<string> {
    match v
    case Null => ToNull
    case Str(s) => Given(s)
    case _ => Omitted
  }

  /** The status a field names, if any. */
  function StatusOf(v: Value): Option<TaskStatus> {
    if v.Str? then ParseStatus(v.s) else None
  }
}
