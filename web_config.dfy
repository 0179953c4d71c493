/**
 * `WebConfig`: the client's API addresses, derived from the optional
 * environment value `NEXT_PUBLIC_API_URL`.
 */
module WebConfig {
  import opened Common
  import opened Strings

  const DefaultBaseUrl := "http://localhost:3005/api"
  const DefaultAuthUrl := "http://localhost:3005/api/auth"

  /** The environment value counts as set when it is present and not empty (`||` and `?:` test truthiness). */
  predicate IsSet(env: Option<string>) {
    env.Some? && env.value != ""
  }

  /** `config.api.baseUrl`: the environment value, or the local default. */
  function BaseUrl(env: Option<string>): (url: string)
    ensures IsSet(env) ==> url == env.value
    ensures !IsSet(env) ==> url == DefaultBaseUrl
  {
    if IsSet(env) then env.value else DefaultBaseUrl
  }

  /** `config.api.authUrl`: the environment value with its first "/api" removed, then "/api/auth"; or the local default. */
  function AuthUrl(env: Option<string>): (url: string)
    ensures !IsSet(env) ==> url == DefaultAuthUrl
  {
    if IsSet(env) then ReplaceFirst(env.value, "/api", "") + "/api/auth" else DefaultAuthUrl
  }

  /** A value without "/api" is kept whole, and "/api/auth" is appended. */
  lemma AuthUrlWithoutApi(v: string)
    requires v != "" && !Contains(v, "/api")
    ensures AuthUrl(Some(v)) == v + "/api/auth"
  {
    ReplaceFirstSpec(v, "/api", "");
  }

  /**
   * With `v = p + "/api" + q` and no earlier "/api" in `v`, the auth address
   * is `p + q + "/api/auth"`: only the first occurrence goes.
   */
  lemma {:induction false} AuthUrlDropsFirstApi(p: string, q: string)
    requires forall j :: 0 <= j < |p| ==> !OccursAt(p + "/api" + q, "/api", j)
    ensures AuthUrl(Some(p + "/api" + q)) == p + q + "/api/auth"
  {
    var v := p + "/api" + q;
    FirstApiAt(p, q);
    ReplaceFirstSpec(v, "/api", "");
    assert v[..|p|] == p;
    assert v[|p| + 4..] == q;
  }

  /** The first "/api" in `p + "/api" + q`, when `p` holds none that starts in it, is the one after `p`. */
  lemma FirstApiAt(p: string, q: string)
    requires forall j :: 0 <= j < |p| ==> !OccursAt(p + "/api" + q, "/api", j)
    ensures IndexOf(p + "/api" + q, "/api") == Some(|p|)
  {
    var v := p + "/api" + q;
    assert OccursAt(v, "/api", |p|) by {
      assert v[|p|..|p| + 4] == "/api";
    }
  }

  /** An address that ends in "/api" with no earlier "/api" gets "/api/auth" in its place. */
  lemma ApiSuffixBecomesAuth(p: string)
    requires forall j :: 0 <= j < |p| ==> !OccursAt(p + "/api", "/api", j)
    ensures AuthUrl(Some(p + "/api")) == p + "/api/auth"
  {
    assert p + "/api" == p + "/api" + "";
    AuthUrlDropsFirstApi(p, "");
    assert p + "" + "/api/auth" == p + "/api/auth";
  }
}
