/** `useAuth` (client/src/hooks/useAuth.js): the signed-in user as a
    reducer over a fixed set of keys, the refresh token kept in local
    storage, the startup refresh of the bearer token and the
    "session invalidated" message. `postEndpoint` comes from
    client/src/utils/fetcher.js, which is not part of this model: its calls
    are recorded, and the startup effect receives their outcome as a
    parameter, as it receives the outcome of `jwt-decode`. */
module Auth {
  import opened Js

  /** `emptyUser`: logged out, empty tokens. */
  function EmptyUser(): map<string, Value>
  {
    map["loggedIn" := Bool(false), "username" := Str(""),
        "bearerToken" := Obj(map["token" := Str(""), "token_type" := Str("Bearer"), "expires_in" := Num(0)]),
        "refreshToken" := Obj(map["token" := Str(""), "token_type" := Str("Refresh"), "expires_in" := Num(0)])]
  }

  const UserKeys: set<string> := {"loggedIn", "username", "bearerToken", "refreshToken"}

  const LogoutEndpoint := "/user/logout"
  const RefreshEndpoint := "/user/refresh"

  /** The updates whose keys the current user already has. */
  function Filtered(current: map<string, Value>, updates: map<string, Value>): (valid: map<string, Value>)
    ensures valid.Keys == current.Keys * updates.Keys
    ensures forall k :: k in valid ==> valid[k] == updates[k]
  {
    map k | k in current.Keys * updates.Keys :: updates[k]
  }

  /** What the reducer does to the stored refresh token. */
  datatype Storage = Kept | Removed | Stored(token: string)

  /** One reducer call: its storage effect, the body of the logout it posts
      (if any) and the next user, or None when it throws a TypeError. */
  datatype Reduction = Reduction(storage: Storage, logout: Option<Value>, next: Option<map<string, Value>>)

  /** The refresh token text of a user object, None when reading it throws. */
  function TokenOf(user: map<string, Value>): Option<Value>
  {
    Prop(Field(Obj(user), "refreshToken"), "token")
  }

  /** The reducer of `useReducer`. */
  function Reduce(current: map<string, Value>, updates: map<string, Value>): (r: Reduction)
    // a falsy (or omitted) loggedIn resets: the stored token goes, logout is posted
    ensures r.storage == Removed <==> !Truthy(Field(Obj(Filtered(current, updates)), "loggedIn"))
    ensures r.storage == Removed ==>
      && (r.next.Some? <==> TokenOf(current).Some?)
      && (r.next.Some? ==>
            r.next.value == EmptyUser() && r.logout == Some(Obj(map["refreshToken" := TokenOf(current).value])))
    // only the logged-out to logged-in transition stores a token
    ensures r.storage.Stored? <==>
      (&& !Truthy(Field(Obj(current), "loggedIn"))
       && Truthy(Field(Obj(Filtered(current, updates)), "loggedIn"))
       && TokenOf(Filtered(current, updates)).Some?)
    ensures r.storage.Stored? ==> r.storage.token == ToStr(TokenOf(Filtered(current, updates)).value)
    // otherwise a shallow merge that keeps the key set
    ensures r.storage != Removed ==> r.logout.None?
    ensures r.storage != Removed && r.next.Some? ==>
      && r.next.value.Keys == current.Keys
      && forall k :: k in current ==> r.next.value[k] == (if k in updates then updates[k] else current[k])
    ensures r.storage != Removed && r.next.None? ==>
      !Truthy(Field(Obj(current), "loggedIn")) && TokenOf(Filtered(current, updates)).None?
  {
    var valid := Filtered(current, updates);
    if !Truthy(Field(Obj(valid), "loggedIn")) then
      match TokenOf(current)
      case None => Reduction(Removed, None, None)
      case Some(t) => Reduction(Removed, Some(Obj(map["refreshToken" := t])), Some(EmptyUser()))
    else if !Truthy(Field(Obj(current), "loggedIn")) then
      match TokenOf(valid)
      case None => Reduction(Kept, None, None)
      case Some(t) => Reduction(Stored(ToStr(t)), None, Some(current + valid))
    else
      Reduction(Kept, None, Some(current + valid))
  }

  /** Whatever the updates, a user with the keys of `emptyUser` keeps
      exactly those keys. */
  lemma ReduceKeepsUserKeys(current: map<string, Value>, updates: map<string, Value>)
    requires current.Keys == UserKeys
    ensures Reduce(current, updates).next.Some? ==> Reduce(current, updates).next.value.Keys == UserKeys
  {
  }

  /** Updates without `loggedIn` log the user out. */
  lemma OmittedLoggedInResets(current: map<string, Value>, updates: map<string, Value>)
    requires "loggedIn" !in updates
    ensures Reduce(current, updates).storage == Removed
  {
    assert "loggedIn" !in Filtered(current, updates);
  }

  /** The startup refresh's result as updates for the reducer, or None when
      the promise chain reaches its `catch`: the post rejects, the response
      has no `bearerToken.token`, decoding throws or yields nothing. */
  function StartupUpdates(res: Outcome, decode: Value -> Outcome): (u: Option<map<string, Value>>)
    ensures u.Some? ==> res.Returns? && res.value.Obj?
    ensures u.Some? ==> u.value.Keys == {"loggedIn", "username"} + res.value.fields.Keys
    ensures u.Some? ==> forall k :: k in res.value.fields ==> u.value[k] == res.value.fields[k]
    ensures u.Some? && "loggedIn" !in res.value.fields ==> u.value["loggedIn"] == Bool(true)
  {
    match res
    case Throws(_) => None
    case Returns(v) =>
      match Prop(v, "bearerToken")
      case None => None
      case Some(bearer) =>
        match Prop(bearer, "token")
        case None => None
        case Some(token) =>
          match decode(token)
          case Throws(_) => None
          case Returns(decoded) =>
            match Prop(decoded, "email")
            case None => None
            case Some(email) =>
              // the `{loggedIn: true, username, ...res}` literal; only an
              // object can have a bearerToken here
              if v.Obj? then Some(map["loggedIn" := Bool(true), "username" := email] + v.fields) else None
  }

  /** A refresh response with only the token fields logs the stored user
      in under the decoded email and stores the new refresh token. */
  lemma StartupLogsIn(current: map<string, Value>, res: Value, decode: Value -> Outcome)
    requires current.Keys == UserKeys && !Truthy(Field(Obj(current), "loggedIn"))
    requires res.Obj? && res.fields.Keys == {"bearerToken", "refreshToken"}
    requires res.fields["refreshToken"].Obj? && "token" in res.fields["refreshToken"].fields
    requires StartupUpdates(Returns(res), decode).Some?
    ensures var u := StartupUpdates(Returns(res), decode).value;
      var r := Reduce(current, u);
      && r.next.Some? && r.next.value["loggedIn"] == Bool(true)
      && r.next.value["username"] == Field(decode(Field(Field(res, "bearerToken"), "token")).value, "email")
      && r.next.value["bearerToken"] == res.fields["bearerToken"]
      && r.storage == Stored(ToStr(res.fields["refreshToken"].fields["token"]))
  {
    var u := StartupUpdates(Returns(res), decode).value;
    assert Filtered(current, u) == u;
    assert u["refreshToken"] == res.fields["refreshToken"];
  }

  /** The hook's state: the user, the stored refresh token (`localStorage`),
      the calls to `postEndpoint` in order, and `sessionInvalidated`. */
  class Session {
    var user: map<string, Value>
    var stored: Option<string>
    var posts: seq<(string, Value)>
    var sessionInvalidated: bool

    /** The user always has exactly the keys of `emptyUser`. */
    predicate Valid()
      reads this
    {
      user.Keys == UserKeys
    }

    constructor (stored: Option<string>)
      ensures Valid() && user == EmptyUser() && this.stored == stored && posts == [] && !sessionInvalidated
    {
      user := EmptyUser();
      this.stored := stored;
      posts := [];
      sessionInvalidated := false;
    }

    /** `validKeys.reduce(...)`: the accumulator gains `updates[key]` for
        each key of the current user that `updates` has. */
    static method ValidUpdates(current: map<string, Value>, updates: map<string, Value>)
      returns (obj: map<string, Value>)
      ensures obj == Filtered(current, updates)
    {
      obj := map[];
      var keys := current.Keys;
      ghost var seen: set<string> := {};
      while keys != {}
        invariant keys + seen == current.Keys && keys !! seen
        invariant obj == Filtered(map k | k in seen :: current[k], updates)
        decreases keys
      {
        var key :| key in keys;
        if key in updates {
          obj := obj[key := updates[key]];
        }
        keys := keys - {key};
        seen := seen + {key};
      }
    }

    /** `updateUser(updates)`. A throwing reducer leaves the state as it
        was, except that `removeItem` has already run. */
    method Update(updates: map<string, Value>) returns (thrown: Option<Value>)
      requires Valid()
      modifies this
      ensures Valid()
      ensures var r := Reduce(old(user), updates);
        && (thrown.None? <==> r.next.Some?)
        && (thrown.Some? ==> thrown == Some(PropertyOfNothing) && user == old(user))
        && (r.next.Some? ==> user == r.next.value)
        && stored == (match r.storage case Kept => old(stored) case Removed => None case Stored(t) => Some(t))
        && posts == old(posts) + (if r.logout.Some? then [(LogoutEndpoint, r.logout.value)] else [])
      ensures sessionInvalidated == old(sessionInvalidated)
    {
      ReduceKeepsUserKeys(user, updates);
      var valid := ValidUpdates(user, updates);
      if !Truthy(Field(Obj(valid), "loggedIn")) {
        stored := None;
        var token := TokenOf(user);
        if token.None? {
          return Some(PropertyOfNothing);
        }
        posts := posts + [(LogoutEndpoint, Obj(map["refreshToken" := token.value]))];
        user := EmptyUser();
        return None;
      }
      if !Truthy(Field(Obj(user), "loggedIn")) {
        var token := TokenOf(valid);
        if token.None? {
          return Some(PropertyOfNothing);
        }
        stored := Some(ToStr(token.value));
      }
      user := user + valid;
      thrown := None;
    }

    /** The startup effect: only when logged out with a stored, non-empty
        refresh token, post it to `/user/refresh`; `res` is the outcome of
        that post. Success updates the user; failure sets
        `sessionInvalidated`. */
    method Startup(post: (string, Value) -> Outcome, decode: Value -> Outcome) returns (ran: bool)
      requires Valid()
      modifies this
      ensures Valid()
      ensures ran <==> !Truthy(Field(Obj(old(user)), "loggedIn")) && old(stored).Some? && old(stored).value != ""
      ensures !ran ==>
        user == old(user) && stored == old(stored) && posts == old(posts) && sessionInvalidated == old(sessionInvalidated)
      ensures ran ==>
        var body := Obj(map["refreshToken" := Str(old(stored).value)]);
        var u := StartupUpdates(post(RefreshEndpoint, body), decode);
        && |posts| > |old(posts)| && posts[..|old(posts)| + 1] == old(posts) + [(RefreshEndpoint, body)]
        && (u.None? ==>
              sessionInvalidated && user == old(user) && stored == old(stored) && posts == old(posts) + [(RefreshEndpoint, body)])
        && (u.Some? && Reduce(old(user), u.value).next.Some? ==> user == Reduce(old(user), u.value).next.value)
        && (u.Some? && Reduce(old(user), u.value).next.None? ==> user == old(user))
        && (u.Some? ==>
              var logout := Reduce(old(user), u.value).logout;
              posts == old(posts) + [(RefreshEndpoint, body)]
                + (if logout.Some? then [(LogoutEndpoint, logout.value)] else []))
        && (u.Some? ==> sessionInvalidated == old(sessionInvalidated))
        && (u.Some? ==>
              stored == (match Reduce(old(user), u.value).storage
                         case Kept => old(stored) case Removed => None case Stored(t) => Some(t)))
    {
      if Truthy(Field(Obj(user), "loggedIn")) || stored.None? || stored.value == "" {
        return false;
      }
      ran := true;
      var body := Obj(map["refreshToken" := Str(stored.value)]);
      posts := posts + [(RefreshEndpoint, body)];
      var u := StartupUpdates(post(RefreshEndpoint, body), decode);
      if u.None? {
        sessionInvalidated := true;
        return;
      }
      ghost var before := posts;
      var _ := Update(u.value);
      assert posts[..|before|] == before;
    }

    /** `hideMessage`. */
    method HideMessage()
      modifies this
      ensures !sessionInvalidated && user == old(user) && stored == old(stored) && posts == old(posts)
    {
      sessionInvalidated := false;
    }

    /** `cancel`: hides the message and logs out, which removes the stored
        token and posts logout with the current refresh token. */
    method Cancel() returns (thrown: Option<Value>)
      requires Valid()
      modifies this
      ensures Valid() && !sessionInvalidated && stored.None?
      ensures thrown.None? <==> TokenOf(old(user)).Some?
      ensures thrown.None? ==>
        user == EmptyUser() && posts == old(posts) + [(LogoutEndpoint, Obj(map["refreshToken" := TokenOf(old(user)).value]))]
    {
      sessionInvalidated := false;
      OmittedLoggedInResets(user, map[]);
      thrown := Update(map["loggedIn" := Bool(false)]);
      assert Filtered(old(user), map["loggedIn" := Bool(false)]) == map["loggedIn" := Bool(false)];
    }
  }
}
