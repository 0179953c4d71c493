/**
 * `AuthMiddleware`: `requireAuth` and `requireRole`.
 *
 * `requireAuth` asks the auth provider for the session, looks the session's
 * user up in the user table, refuses banned users whose ban is still running,
 * and otherwise copies the user's profile onto the request. The provider and
 * the table are outside the model: what they return (or that they threw) is
 * passed in, and so is the current time.
 */
module AuthMiddleware {
  import opened Common
  import opened Strings

  /** What a call into code outside the model did: returned a value, or threw. */
  datatype Call<+T> = Returned(value: T) | Threw

  /** The columns `requireAuth` selects from the user table; `banExpires` is a time in milliseconds. */
  datatype UserRow = UserRow(id: string, email: string, name: Option<string>, image: Option<string>,
                             role: Option<string>, banned: bool, banExpires: Option<int>)

  /** The profile the middleware attaches to the request as `user` and `session.user`. */
  datatype Profile = Profile(id: string, email: string, name: Option<string>, image: Option<string>,
                             role: Option<string>)

  /** What a middleware does with the request: hand it on (`next()`), or answer with a status and `{ error }`. */
  datatype Gate = Pass | Deny(status: int, error: string)

  const UnauthorizedError := "Unauthorized"
  const BannedError := "You have been banned from this application"
  const ForbiddenError := "Forbidden: Insufficient permissions"

  function ProfileOf(u: UserRow): (p: Profile)
    ensures p.id == u.id && p.email == u.email && p.name == u.name && p.image == u.image && p.role == u.role
  {
    Profile(u.id, u.email, u.name, u.image, u.role)
  }

  /** A ban is in force when the user is banned and the ban has no expiry or expires after `now`. */
  function BanInForce(u: UserRow, now: int): (b: bool)
    ensures !u.banned ==> !b
    ensures u.banned && u.banExpires.None? ==> b
    ensures u.banExpires.Some? && u.banExpires.value <= now ==> !b
  {
    u.banned && (u.banExpires.None? || u.banExpires.value > now)
  }

  /** What `requireAuth` decides: admit with a profile, or refuse with a status and an error text. */
  datatype AuthDecision = Admit(profile: Profile) | Refuse(status: int, error: string)

  /**
   * The decision of `requireAuth`. `session` is the session user's id (`None`
   * when there is no session or it has no user); `users` is the user table,
   * the lookup of the session's id in it either answering or throwing.
   */
  function Decide(session: Call<Option<string>>, users: Call<map<string, UserRow>>, now: int): (d: AuthDecision)
    ensures d.Admit? <==>
      && session.Returned? && session.value.Some? && users.Returned?
      && session.value.value in users.value && !BanInForce(users.value[session.value.value], now)
    ensures d.Admit? ==> d.profile == ProfileOf(users.value[session.value.value])
    ensures d.Refuse? && d.status == 403 <==>
      && session.Returned? && session.value.Some? && users.Returned?
      && session.value.value in users.value && BanInForce(users.value[session.value.value], now)
    ensures d.Refuse? && d.status == 403 ==> d.error == BannedError
    ensures d.Refuse? && d.status != 403 ==> d == Refuse(401, UnauthorizedError)
  {
    match session
    case Threw => Refuse(401, UnauthorizedError)
    case Returned(None) => Refuse(401, UnauthorizedError)
    case Returned(Some(id)) =>
      match users
      case Threw => Refuse(401, UnauthorizedError)
      case Returned(table) =>
        if id !in table then Refuse(401, UnauthorizedError)
        else if BanInForce(table[id], now) then Refuse(403, BannedError)
        else Admit(ProfileOf(table[id]))
  }

  /** A ban that expired at or before `now` is no ban at all: the decision is that for the same user unbanned. */
  lemma ExpiredBanIsNoBan(session: Call<Option<string>>, users: map<string, UserRow>, id: string, now: int)
    requires id in users && users[id].banned && users[id].banExpires.Some? && users[id].banExpires.value <= now
    ensures Decide(session, Returned(users), now) == Decide(session, Returned(users[id := users[id].(banned := false)]), now)
    ensures session == Returned(Some(id)) ==> Decide(session, Returned(users), now).Admit?
  {
  }

  /** The request as far as authentication goes: the user and the session the middleware fills in. */
  class AuthRequest {
    var user: Option<Profile>
    var sessionUser: Option<Profile>

    constructor ()
      ensures user.None? && sessionUser.None?
    {
      user := None;
      sessionUser := None;
    }
  }

  /**
   * `requireAuth`: refused requests are answered and left as they were;
   * admitted ones carry the user's profile as both `user` and `session.user`.
   */
  method RequireAuth(req: AuthRequest, session: Call<Option<string>>, users: Call<map<string, UserRow>>, now: int)
    returns (g: Gate)
    modifies req
    ensures var d := Decide(session, users, now);
      && (g.Pass? <==> d.Admit?)
      && (d.Refuse? ==> g == Deny(d.status, d.error) && unchanged(req))
      && (d.Admit? ==> req.user == Some(d.profile) && req.sessionUser == Some(d.profile))
  {
    if session.Threw? || session.value.None? {
      return Deny(401, UnauthorizedError);
    }
    var id := session.value.value;
    if users.Threw? || id !in users.value {
      return Deny(401, UnauthorizedError);
    }
    var row := users.value[id];
    if row.banned {
      if row.banExpires.None? || row.banExpires.value > now {
        return Deny(403, BannedError);
      }
    }
    req.user := Some(ProfileOf(row));
    req.sessionUser := Some(ProfileOf(row));
    g := Pass;
  }

  /** `requireRole` takes one role or a list of roles. */
  datatype RoleArg = OneRole(role: string) | RoleList(roles: seq<string>)

  function AllowedRoles(arg: RoleArg): (r: seq<string>)
    ensures arg.OneRole? ==> r == [arg.role]
    ensures arg.RoleList? ==> r == arg.roles
  {
    match arg
    case OneRole(role) => [role]
    case RoleList(roles) => roles
  }

  /** The user's roles: the role string, "user" when it is missing or empty, split on commas, each part trimmed. */
  function UserRoles(role: Option<string>): (r: seq<string>)
    ensures |r| >= 1
  {
    var text := if role.None? || role.value == "" then "user" else role.value;
    var parts := Split(text, ',');
    seq(|parts|, k requires 0 <= k < |parts| => Trim(parts[k]))
  }

  /** Whether some allowed role is one of the user's roles. */
  function SomeRoleHeld(allowed: seq<string>, held: seq<string>): (b: bool)
    ensures b <==> exists k :: 0 <= k < |allowed| && allowed[k] in held
  {
    if allowed == [] then false
    else allowed[0] in held || SomeRoleHeld(allowed[1..], held)
  }

  /** `requireRole(roles)`: 401 without a user, otherwise pass exactly when some allowed role is held, else 403. */
  function RequireRole(arg: RoleArg, user: Option<Profile>): (g: Gate)
    ensures user.None? ==> g == Deny(401, UnauthorizedError)
    ensures user.Some? ==>
      (g.Pass? <==> exists k :: 0 <= k < |AllowedRoles(arg)| && AllowedRoles(arg)[k] in UserRoles(user.value.role))
    ensures user.Some? && g.Deny? ==> g == Deny(403, ForbiddenError)
  {
    if user.None? then Deny(401, UnauthorizedError)
    else if SomeRoleHeld(AllowedRoles(arg), UserRoles(user.value.role)) then Pass
    else Deny(403, ForbiddenError)
  }

  /** A single role behaves as the one-element list holding it. */
  lemma OneRoleIsSingletonList(role: string, user: Option<Profile>)
    ensures RequireRole(OneRole(role), user) == RequireRole(RoleList([role]), user)
    ensures user.Some? ==> (RequireRole(OneRole(role), user).Pass? <==> role in UserRoles(user.value.role))
  {
    if user.Some? {
      var held := UserRoles(user.value.role);
      assert SomeRoleHeld([role], held) == (role in held || SomeRoleHeld([], held));
    }
  }

  /** A missing or empty role reads as the single role "user". */
  lemma {:induction false} MissingRoleIsUser(role: Option<string>)
    requires role.None? || role.value == ""
    ensures UserRoles(role) == ["user"]
  {
    SplitOfPlain("user", ',');
    TrimOfTrimmed("user");
  }

  /**
   * A role string made of comma-joined names, none with a comma or outer
   * white space, yields exactly those names.
   */
  lemma {:induction false} JoinedRolesAreRecovered(names: seq<string>)
    requires |names| >= 1
    requires forall k :: 0 <= k < |names| ==> ',' !in names[k]
    requires forall k :: 0 <= k < |names| ==> names[k] == [] || (!IsSpace(names[k][0]) && !IsSpace(names[k][|names[k]| - 1]))
    requires Join(names, [',']) != ""
    ensures UserRoles(Some(Join(names, [',']))) == names
  {
    SplitJoin(names, ',');
    var r := UserRoles(Some(Join(names, [','])));
    forall k | 0 <= k < |names| ensures r[k] == names[k] {
      TrimOfTrimmed(names[k]);
    }
  }

  /** Trimming means white space around a comma does not matter: a part " admin " grants "admin". */
  lemma {:induction false} PaddedRoleIsHeld(role: string, k: nat)
    requires role != ""
    requires k < |Split(role, ',')|
    ensures Trim(Split(role, ',')[k]) in UserRoles(Some(role))
  {
    var r := UserRoles(Some(role));
    assert r[k] == Trim(Split(role, ',')[k]);
  }
}
