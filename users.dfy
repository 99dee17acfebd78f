/** The user routes (server/routes/users.js): registration and login over a
    users table, token refresh, and the token-expiry choice. The table is an
    in-memory sequence of rows; `jsonwebtoken` is an oracle. */
module Users {
  import opened Js
  import opened Strings
  import opened Pipeline

  /** A row of the `users` table. The `bearer_token` and `refresh_token`
      columns are never written and are left out. */
  datatype UserRow = UserRow(email: Value, password: Value, bearerExp: Value, refreshExp: Value)

  /** The `users` table, or its absence (`created` false, no rows). */
  datatype UsersTable = UsersTable(created: bool, rows: seq<UserRow>)

  predicate ValidTable(t: UsersTable)
  {
    !t.created ==> t.rows == []
  }

  const IncompleteCredentials := Coded(400, "Request body incomplete, both email and password are required")
  const UserExists := Coded(409, "User already exists")
  const UserCreated := Coded(201, "User created")
  const WrongCredentials := Coded(401, "Incorrect email or password")
  const MissingRefreshToken := Coded(400, "Request body incomplete, refresh token required")
  /** The rejection of a query on a table that was never created (the
      database driver's own text is not modelled). */
  const MissingTable := Error("Error", "users table does not exist")
  /** What `jwt.sign` throws for an `expiresIn` it cannot read as a timespan. */
  const BadTimespan := Error("Error", "\"expiresIn\" should be a number of seconds or string representing a timespan")

  /** `jsonwebtoken` as an oracle. `sign` gives the token for an email and an
      `expiresIn` text; `span` reads such a text as seconds, or fails; `decode`
      gives a token's payload without verifying it (null when unreadable). */
  datatype Jwt = Jwt(sign: (Value, string) -> string, span: string -> Option<int>, decode: Value -> Value)

  /** A signed token with its `iat` and `exp` claims, in seconds. */
  datatype Signed = Signed(token: string, iat: int, exp: int)

  predicate HasEmail(rows: seq<UserRow>, email: Value)
  {
    exists i :: 0 <= i < |rows| && rows[i].email == email
  }

  predicate HasCredentials(rows: seq<UserRow>, email: Value, password: Value)
  {
    exists i :: 0 <= i < |rows| && rows[i].email == email && rows[i].password == password
  }

  /** `createUserTableIfNotExist`. */
  function WithTable(t: UsersTable): (r: UsersTable)
    ensures r.created && (t.created ==> r == t)
    ensures ValidTable(t) ==> r.rows == t.rows
  {
    if t.created then t else UsersTable(true, [])
  }

  /** `registerUser({knex, email, password})`: the outcome of its promise and
      the table afterwards. */
  function RegisterUser(args: Value, t: UsersTable): (r: (Outcome, UsersTable))
    requires ValidTable(t)
    ensures ValidTable(r.1)
    ensures var email, password := Field(args, "email"), Field(args, "password");
      && (!Truthy(email) || !Truthy(password) ==> r == (Throws(IncompleteCredentials), t))
      && (Truthy(email) && Truthy(password) && HasEmail(t.rows, email) ==> r == (Throws(UserExists), t))
      && (Truthy(email) && Truthy(password) && !HasEmail(t.rows, email) ==>
            r.0 == Returns(UserCreated) && r.1.created
            && r.1.rows == t.rows + [UserRow(email, password, Null, Null)])
  {
    var email, password := Field(args, "email"), Field(args, "password");
    if !Truthy(email) || !Truthy(password) then (Throws(IncompleteCredentials), t)
    else
      var t1 := WithTable(t);
      if HasEmail(t1.rows, email) then (Throws(UserExists), t1)
      else (Returns(UserCreated), t1.(rows := t1.rows + [UserRow(email, password, Null, Null)]))
  }

  /** `property = fallback` in a destructuring pattern: the fallback applies
      only when the property is undefined. */
  function Default(v: Value, fallback: Value): (r: Value)
    ensures v.Undefined? ==> r == fallback
    ensures !v.Undefined? ==> r == v
  {
    if v.Undefined? then fallback else v
  }

  /** The `expiresIn` text of `createBearerToken` (fallback "10m") and
      `createRefreshToken` (fallback "24h"). */
  function ExpiryText(expiry: Value, longExpiry: Value, fallback: string): (text: string)
    ensures Truthy(expiry) ==> text == ToStr(expiry) + "s"
    ensures !Truthy(expiry) ==> text == if Truthy(longExpiry) then "365d" else fallback
  {
    if Truthy(expiry) then ToStr(expiry) + "s" else if Truthy(longExpiry) then "365d" else fallback
  }

  /** Signing a token issued at `now`: `exp - iat` is the span of the chosen
      text, or signing throws when the text is no timespan. */
  function CreateToken(email: Value, longExpiry: Value, expiry: Value, fallback: string, now: int, jwt: Jwt)
    : (r: Option<Signed>)
    ensures r.None? <==> jwt.span(ExpiryText(expiry, longExpiry, fallback)).None?
    ensures r.Some? ==> (r.value.iat == now
      && r.value.exp - r.value.iat == jwt.span(ExpiryText(expiry, longExpiry, fallback)).value
      && r.value.token == jwt.sign(email, ExpiryText(expiry, longExpiry, fallback)))
  {
    var text := ExpiryText(expiry, longExpiry, fallback);
    match jwt.span(text)
    case None => None
    case Some(seconds) => Some(Signed(jwt.sign(email, text), now, now + seconds))
  }

  /** `{token, token_type, expires_in: exp - iat}`. */
  function TokenBody(s: Signed, tokenType: string): (v: Value)
    ensures Field(v, "token") == Str(s.token) && Field(v, "token_type") == Str(tokenType)
    ensures Field(v, "expires_in") == Num(s.exp - s.iat)
  {
    Obj(map["token" := Str(s.token), "token_type" := Str(tokenType), "expires_in" := Num(s.exp - s.iat)])
  }

  /** `{bearerToken, refreshToken}`, each the body of its own signed token. */
  function TokenPair(bearer: Signed, refresh: Signed): (v: Value)
    ensures Field(v, "bearerToken") == TokenBody(bearer, "Bearer")
    ensures Field(v, "refreshToken") == TokenBody(refresh, "Refresh")
    ensures Field(Field(v, "bearerToken"), "expires_in") == Num(bearer.exp - bearer.iat)
    ensures Field(Field(v, "refreshToken"), "expires_in") == Num(refresh.exp - refresh.iat)
  {
    Obj(map["bearerToken" := TokenBody(bearer, "Bearer"), "refreshToken" := TokenBody(refresh, "Refresh")])
  }

  /** The update of every row with the given email. */
  function UpdateSessions(rows: seq<UserRow>, email: Value, bearerExp: int, refreshExp: int): (r: seq<UserRow>)
    ensures |r| == |rows|
    ensures forall i :: 0 <= i < |rows| ==>
      r[i] == if rows[i].email == email then rows[i].(bearerExp := Num(bearerExp), refreshExp := Num(refreshExp))
              else rows[i]
  {
    seq(|rows|, i requires 0 <= i < |rows| =>
      if rows[i].email == email then rows[i].(bearerExp := Num(bearerExp), refreshExp := Num(refreshExp))
      else rows[i])
  }

  /** `loginUser`'s destructuring defaults: `longExpiry = false`,
      `bearerExpire = 600` and `refreshExpire = 86400`. */
  function LongExpiryOf(args: Value): Value { Default(Field(args, "longExpiry"), Bool(false)) }
  function BearerExpireOf(args: Value): Value { Default(Field(args, "bearerExpire"), Num(600)) }
  function RefreshExpireOf(args: Value): Value { Default(Field(args, "refreshExpire"), Num(86400)) }

  /** The `expiresIn` texts of the two tokens a login signs. */
  function BearerExpiry(args: Value): string { ExpiryText(BearerExpireOf(args), LongExpiryOf(args), "10m") }
  function RefreshExpiry(args: Value): string { ExpiryText(RefreshExpireOf(args), LongExpiryOf(args), "24h") }

  /** The two tokens `loginUser` signs, or None when either text is no
      timespan. */
  function LoginTokens(args: Value, now: int, jwt: Jwt): (r: Option<(Signed, Signed)>)
    ensures r.Some? <==> jwt.span(BearerExpiry(args)).Some? && jwt.span(RefreshExpiry(args)).Some?
    ensures r.Some? ==> (r.value.0.exp - r.value.0.iat == jwt.span(BearerExpiry(args)).value
      && r.value.1.exp - r.value.1.iat == jwt.span(RefreshExpiry(args)).value
      && r.value.0.iat == now && r.value.1.iat == now
      && r.value.0.token == jwt.sign(Field(args, "email"), BearerExpiry(args))
      && r.value.1.token == jwt.sign(Field(args, "email"), RefreshExpiry(args)))
  {
    var email := Field(args, "email");
    match (CreateToken(email, LongExpiryOf(args), BearerExpireOf(args), "10m", now, jwt),
           CreateToken(email, LongExpiryOf(args), RefreshExpireOf(args), "24h", now, jwt))
    case (Some(bearer), Some(refresh)) => Some((bearer, refresh))
    case _ => None
  }

  /** The reply of a login whose credentials matched: the token pair, each
      `expires_in` being the span of that token's expiry text, or the signing
      error. */
  function LoginReply(args: Value, now: int, jwt: Jwt): (r: Outcome)
    ensures r.Returns? <==> LoginTokens(args, now, jwt).Some?
    ensures r.Throws? ==> r.thrown == BadTimespan
    ensures r.Returns? ==>
      && r.value == TokenPair(LoginTokens(args, now, jwt).value.0, LoginTokens(args, now, jwt).value.1)
      && Field(Field(r.value, "bearerToken"), "expires_in") == Num(jwt.span(BearerExpiry(args)).value)
      && Field(Field(r.value, "refreshToken"), "expires_in") == Num(jwt.span(RefreshExpiry(args)).value)
    ensures r.Returns? ==>
      var (bearer, refresh) := (Field(r.value, "bearerToken"), Field(r.value, "refreshToken"));
      && Field(bearer, "token") == Str(jwt.sign(Field(args, "email"), BearerExpiry(args)))
      && Field(bearer, "token_type") == Str("Bearer")
      && Field(refresh, "token") == Str(jwt.sign(Field(args, "email"), RefreshExpiry(args)))
      && Field(refresh, "token_type") == Str("Refresh")
  {
    var tokens := LoginTokens(args, now, jwt);
    if tokens.None? then Throws(BadTimespan)
    else
      var (bearer, refresh) := tokens.value;
      PairExpiresIn(bearer, refresh, jwt.span(BearerExpiry(args)).value, jwt.span(RefreshExpiry(args)).value);
      Returns(TokenPair(bearer, refresh))
  }

  lemma PairExpiresIn(bearer: Signed, refresh: Signed, bearerSpan: int, refreshSpan: int)
    requires bearer.exp - bearer.iat == bearerSpan && refresh.exp - refresh.iat == refreshSpan
    ensures Field(Field(TokenPair(bearer, refresh), "bearerToken"), "expires_in") == Num(bearerSpan)
    ensures Field(Field(TokenPair(bearer, refresh), "refreshToken"), "expires_in") == Num(refreshSpan)
  {
  }

  /** `loginUser` at time `now` (seconds): the outcome of its promise and the
      table afterwards. The session lookup after the credentials check always
      finds the matched row, so the insert branch of the source is never taken. */
  function LoginUser(args: Value, t: UsersTable, now: int, jwt: Jwt): (r: (Outcome, UsersTable))
    requires ValidTable(t)
    ensures r.0.Throws? ==> r.1 == t
    ensures ValidTable(r.1) && r.1.created == t.created
    ensures var email, password := Field(args, "email"), Field(args, "password");
      && (!Truthy(email) || !Truthy(password) ==> r == (Throws(IncompleteCredentials), t))
      && (Truthy(email) && Truthy(password) && !t.created ==> r == (Throws(MissingTable), t))
      && (Truthy(email) && Truthy(password) && t.created && !HasCredentials(t.rows, email, password) ==>
            r == (Throws(WrongCredentials), t))
      && (Truthy(email) && Truthy(password) && t.created && HasCredentials(t.rows, email, password) ==>
            r.0 == LoginReply(args, now, jwt))
    ensures r.0.Returns? ==>
      && r.0 == LoginReply(args, now, jwt)
      && var tokens := LoginTokens(args, now, jwt).value;
      && r.1.rows == UpdateSessions(t.rows, Field(args, "email"), tokens.0.exp, tokens.1.exp)
  {
    var email, password := Field(args, "email"), Field(args, "password");
    if !Truthy(email) || !Truthy(password) then (Throws(IncompleteCredentials), t)
    else if !t.created then (Throws(MissingTable), t)
    else if !HasCredentials(t.rows, email, password) then (Throws(WrongCredentials), t)
    else
      var reply := LoginReply(args, now, jwt);
      if reply.Throws? then (reply, t)
      else
        var tokens := LoginTokens(args, now, jwt).value;
        (reply, t.(rows := UpdateSessions(t.rows, email, tokens.0.exp, tokens.1.exp)))
  }

  /** `refresh({knex, token})`: the token is only decoded, never verified, and
      default-expiry tokens are issued for the email it names. The table is
      never read or written. */
  function Refresh(args: Value, t: UsersTable, now: int, jwt: Jwt): (r: (Outcome, UsersTable))
    ensures r.1 == t
  {
    var payload := jwt.decode(Field(args, "token"));
    match Prop(payload, "email")
    case None => (Throws(Error("TypeError", "Cannot destructure property 'email' of null")), t)
    case Some(email) =>
      match (CreateToken(email, Bool(false), Null, "10m", now, jwt), CreateToken(email, Bool(false), Null, "24h", now, jwt))
      case (Some(bearer), Some(refresh)) => (Returns(TokenPair(bearer, refresh)), t)
      case _ => (Throws(BadTimespan), t)
  }

  /** The `/register` parser: `{email, password}` from the body. Reading a
      field of an absent body throws. */
  function RegisterParser(req: Value): (o: Outcome)
    ensures o.Throws? <==> Prop(Field(req, "body"), "email").None?
    ensures o.Throws? ==> o.thrown == PropertyOfNothing
    ensures o.Returns? ==> o.value.Obj? && o.value.fields.Keys == {"email", "password"}
    ensures o.Returns? ==>
      && Field(o.value, "email") == Field(Field(req, "body"), "email")
      && Field(o.value, "password") == Field(Field(req, "body"), "password")
  {
    var body := Field(req, "body");
    match Prop(body, "email")
    case None => Throws(PropertyOfNothing)
    case Some(email) => Returns(Obj(map["email" := email, "password" := Field(body, "password")]))
  }

  /** The `/login` parser, renaming the two expiry fields. */
  function LoginParser(req: Value): (o: Outcome)
    ensures o.Throws? <==> Prop(Field(req, "body"), "email").None?
    ensures o.Throws? ==> o.thrown == PropertyOfNothing
    ensures o.Returns? ==>
      o.value.Obj? && o.value.fields.Keys == {"email", "password", "longExpiry", "bearerExpire", "refreshExpire"}
    ensures o.Returns? ==>
      && Field(o.value, "email") == Field(Field(req, "body"), "email")
      && Field(o.value, "password") == Field(Field(req, "body"), "password")
      && Field(o.value, "longExpiry") == Field(Field(req, "body"), "longExpiry")
    ensures o.Returns? ==> (Field(o.value, "bearerExpire") == Field(Field(req, "body"), "bearerExpiresInSeconds")
      && Field(o.value, "refreshExpire") == Field(Field(req, "body"), "refreshExpiresInSeconds"))
  {
    var body := Field(req, "body");
    match Prop(body, "email")
    case None => Throws(PropertyOfNothing)
    case Some(email) =>
      Returns(Obj(map["email" := email, "password" := Field(body, "password"),
                      "longExpiry" := Field(body, "longExpiry"),
                      "bearerExpire" := Field(body, "bearerExpiresInSeconds"),
                      "refreshExpire" := Field(body, "refreshExpiresInSeconds")]))
  }

  /** The `/refresh` parser: throws the 400 error when `refreshToken` is falsy. */
  function RefreshParser(req: Value): (o: Outcome)
    ensures o.Returns? <==> Truthy(Field(Field(req, "body"), "refreshToken"))
    ensures o.Returns? ==> Field(o.value, "token") == Field(Field(req, "body"), "refreshToken")
    ensures o.Throws? && Truthy(Field(req, "body")) ==> o.thrown == MissingRefreshToken
  {
    var body := Field(req, "body");
    match Prop(body, "refreshToken")
    case None => Throws(PropertyOfNothing)
    case Some(token) =>
      if !Truthy(token) then Throws(MissingRefreshToken) else Returns(Obj(map["token" := token]))
  }

  /** A route of the form `parse(parser), query(q), send` on a fresh request:
      the reply and the table afterwards. */
  function Route(parsed: Outcome, q: (Value, UsersTable) -> (Outcome, UsersTable), t: UsersTable): (r: (Reply, UsersTable))
  {
    var c1 := AfterParse(Fresh, parsed, true);
    if Skips(c1, true) then (Send(c1), t)
    else
      var (settled, after) := q(QueryArgs(DbHandle, c1.queryParams), t);
      (Send(AfterQuery(c1, settled, true)), after)
  }

  /** `parse(parser), query(query), send` run on a request, as Express runs
      the three stages. */
  method Serve(req: Request, parser: Value -> Outcome, q: (Value, UsersTable) -> (Outcome, UsersTable),
               db: Store<UsersTable>) returns (reply: Reply)
    requires req.Ctx() == Fresh && req.db == DbHandle
    modifies req, db
    ensures (reply, db.state) == Route(parser(req.incoming), q, old(db.state))
    ensures req.nextCalls == old(req.nextCalls) + 2
  {
    var _ := req.Parse(parser);
    var _ := req.Query(q, db);
    reply := Send(req.Ctx());
  }

  function RegisterRoute(req: Value, t: UsersTable): (r: (Reply, UsersTable))
    requires ValidTable(t)
  {
    Route(RegisterParser(req), (a, u) => if ValidTable(u) then RegisterUser(a, u) else (Throws(MissingTable), u), t)
  }

  /** The reply to a registration: 400 for missing fields, 409 for a known
      email (the table unchanged), 201 "User created" otherwise. */
  lemma {:induction false} RegisterReplies(email: Value, password: Value, t: UsersTable)
    requires ValidTable(t)
    ensures var req := Obj(map["body" := Obj(map["email" := email, "password" := password])]);
      var (reply, after) := RegisterRoute(req, t);
      && (!Truthy(email) || !Truthy(password) ==>
            reply == Respond(Num(400), ErrorBody(Str("Request body incomplete, both email and password are required"))) && after == t)
      && (Truthy(email) && Truthy(password) && HasEmail(t.rows, email) ==>
            reply == Respond(Num(409), ErrorBody(Str("User already exists"))) && after == t)
      && (Truthy(email) && Truthy(password) && !HasEmail(t.rows, email) ==>
            reply == Respond(Num(201), UserCreated) && after.rows == t.rows + [UserRow(email, password, Null, Null)])
  {
    var req := Obj(map["body" := Obj(map["email" := email, "password" := password])]);
    var parsed := RegisterParser(req);
    assert parsed == Returns(Obj(map["email" := email, "password" := password]));
    var args := QueryArgs(DbHandle, parsed.value);
    assert Field(args, "email") == email && Field(args, "password") == password;
    var q := (a, u) => if ValidTable(u) then RegisterUser(a, u) else (Throws(MissingTable), u);
    RouteOfParsed(parsed.value, q, t);
    var c := Context(Undefined, parsed.value, Undefined);
    if !Truthy(email) || !Truthy(password) {
      SendsCoded(400, "Request body incomplete, both email and password are required", c);
    } else if HasEmail(t.rows, email) {
      SendsCoded(409, "User already exists", c);
    } else {
      SendsResult(201, "User created", c);
    }
  }

  /** A route whose parser returns `v` runs the query on `v` and sends
      what it settles with. */
  lemma RouteOfParsed(v: Value, q: (Value, UsersTable) -> (Outcome, UsersTable), t: UsersTable)
    ensures var (settled, after) := q(QueryArgs(DbHandle, v), t);
      Route(Returns(v), q, t) == (Send(AfterQuery(Context(Undefined, v, Undefined), settled, true)), after)
  {
    assert AfterParse(Fresh, Returns(v), true) == Context(Undefined, v, Undefined);
  }

  /** A thrown `{code, message}` with a code in 100..999 is sent as that
      status and message. */
  lemma SendsCoded(code: int, message: string, c: Context)
    requires !Truthy(c.error) && 100 <= code <= 999
    ensures Send(AfterQuery(c, Throws(Coded(code, message)), true)) == Respond(Num(code), ErrorBody(Str(message)))
  {
  }

  /** A resolved `{code, message}` with a code in 100..999 is sent as is. */
  lemma SendsResult(code: int, message: string, c: Context)
    requires !Truthy(c.error) && 100 <= code <= 999
    ensures Send(AfterQuery(c, Returns(Coded(code, message)), true)) == Respond(Num(code), Coded(code, message))
  {
  }

  /** A user that has just registered can log in with the same credentials:
      the login answers the token pair whenever both expiry texts are
      timespans, and otherwise fails only on the timespan. */
  lemma RegisterThenLogin(args: Value, t: UsersTable, now: int, jwt: Jwt)
    requires ValidTable(t)
    requires RegisterUser(args, t).0 == Returns(UserCreated)
    ensures HasCredentials(RegisterUser(args, t).1.rows, Field(args, "email"), Field(args, "password"))
    ensures LoginUser(args, RegisterUser(args, t).1, now, jwt).0 == LoginReply(args, now, jwt)
    ensures LoginTokens(args, now, jwt).Some? ==> LoginUser(args, RegisterUser(args, t).1, now, jwt).0.Returns?
    ensures LoginUser(args, RegisterUser(args, t).1, now, jwt).0.Throws? ==>
      LoginUser(args, RegisterUser(args, t).1, now, jwt).0.thrown == BadTimespan
  {
    var rows := RegisterUser(args, t).1.rows;
    assert rows[|rows| - 1].email == Field(args, "email");
  }

  /** Registering the same email twice: the second attempt gets 409 and leaves
      the table as the first one left it. */
  lemma RegisterTwice(args: Value, other: Value, t: UsersTable)
    requires ValidTable(t)
    requires RegisterUser(args, t).0 == Returns(UserCreated)
    requires Field(other, "email") == Field(args, "email") && Truthy(Field(other, "password"))
    ensures var t1 := RegisterUser(args, t).1; RegisterUser(other, t1) == (Throws(UserExists), t1)
  {
    var rows := RegisterUser(args, t).1.rows;
    assert rows[|rows| - 1].email == Field(args, "email");
  }

  /** Login fails with the one 401 error whenever no row matches both the
      email and the password: an unknown email and a wrong password are not
      told apart. */
  lemma LoginRejections(args: Value, t: UsersTable, now: int, jwt: Jwt)
    requires ValidTable(t) && t.created
    requires Truthy(Field(args, "email")) && Truthy(Field(args, "password"))
    ensures LoginUser(args, t, now, jwt).0 == Throws(WrongCredentials)
      <==> !HasCredentials(t.rows, Field(args, "email"), Field(args, "password"))
  {
  }

  /** A successful login writes the two expiry columns of exactly the rows
      with the matched email; every other column and row is unchanged. */
  lemma {:induction false} LoginUpdatesOnlyThatEmail(args: Value, t: UsersTable, now: int, jwt: Jwt)
    requires ValidTable(t)
    requires LoginUser(args, t, now, jwt).0.Returns?
    ensures var after := LoginUser(args, t, now, jwt).1.rows;
      && |after| == |t.rows|
      && forall i :: 0 <= i < |after| ==>
           && after[i].email == t.rows[i].email && after[i].password == t.rows[i].password
           && (t.rows[i].email != Field(args, "email") ==> after[i] == t.rows[i])
  {
    var tokens := LoginTokens(args, now, jwt).value;
    var after := LoginUser(args, t, now, jwt).1.rows;
    assert after == UpdateSessions(t.rows, Field(args, "email"), tokens.0.exp, tokens.1.exp);
    SessionsKeepOthers(t.rows, Field(args, "email"), tokens.0.exp, tokens.1.exp);
  }

  lemma SessionsKeepOthers(rows: seq<UserRow>, email: Value, bearerExp: int, refreshExp: int)
    ensures var after := UpdateSessions(rows, email, bearerExp, refreshExp);
      && |after| == |rows|
      && forall i :: 0 <= i < |after| ==>
           && after[i].email == rows[i].email && after[i].password == rows[i].password
           && (rows[i].email != email ==> after[i] == rows[i])
  {
  }

  /** The login response: each `expires_in` is `exp - iat`, the span of that
      token's expiry text. */
  lemma {:induction false} LoginExpiresIn(args: Value, t: UsersTable, now: int, jwt: Jwt)
    requires ValidTable(t)
    requires LoginUser(args, t, now, jwt).0.Returns?
    ensures var body := LoginUser(args, t, now, jwt).0.value;
      && Field(Field(body, "bearerToken"), "expires_in") == Num(jwt.span(BearerExpiry(args)).value)
      && Field(Field(body, "refreshToken"), "expires_in") == Num(jwt.span(RefreshExpiry(args)).value)
  {
    assert LoginUser(args, t, now, jwt).0 == LoginReply(args, now, jwt);
  }

  /** The expiry texts a login chooses: with the expiry fields omitted they
      are "600s" and "86400s" whatever `longExpiry` says; `longExpiry` only
      matters when an explicit falsy expiry is sent. */
  lemma LoginExpiryChoice(args: Value)
    ensures Field(args, "bearerExpire").Undefined? ==> BearerExpiry(args) == "600s"
    ensures Field(args, "refreshExpire").Undefined? ==> RefreshExpiry(args) == "86400s"
    ensures var e := Field(args, "bearerExpire"); !e.Undefined? && !Truthy(e) ==>
      BearerExpiry(args) == if Truthy(Field(args, "longExpiry")) then "365d" else "10m"
  {
    assert ToStr(Num(600)) == "600";
    assert ToStr(Num(86400)) == "86400";
  }

  /** A refresh issues "10m" and "24h" tokens for whatever email the token
      names, without checking its signature or expiry; each `expires_in` is
      the span of its text. */
  lemma RefreshIgnoresVerification(args: Value, t: UsersTable, now: int, jwt: Jwt)
    requires Refresh(args, t, now, jwt).0.Returns?
    ensures var payload := jwt.decode(Field(args, "token"));
      var body := Refresh(args, t, now, jwt).0.value;
      && Field(Field(body, "bearerToken"), "token") == Str(jwt.sign(Field(payload, "email"), "10m"))
      && Field(Field(body, "refreshToken"), "token") == Str(jwt.sign(Field(payload, "email"), "24h"))
      && Field(Field(body, "bearerToken"), "expires_in") == Num(jwt.span("10m").value)
      && Field(Field(body, "refreshToken"), "expires_in") == Num(jwt.span("24h").value)
  {
  }

  /** `/refresh` as parse, query and send. */
  function RefreshRoute(req: Value, t: UsersTable, now: int, jwt: Jwt): (Reply, UsersTable)
  {
    Route(RefreshParser(req), (a, u) => Refresh(a, u, now, jwt), t)
  }

  /** `/refresh` with a body lacking a truthy `refreshToken` answers 400 and
      never reaches `refresh`. */
  lemma RefreshWithoutToken(body: Value, t: UsersTable, now: int, jwt: Jwt)
    requires body.Obj? && !Truthy(Field(body, "refreshToken"))
    ensures RefreshRoute(Obj(map["body" := body]), t, now, jwt)
      == (Respond(Num(400), ErrorBody(Str("Request body incomplete, refresh token required"))), t)
  {
    assert Field(Obj(map["body" := body]), "body") == body;
  }

  /** `/refresh` with a truthy `refreshToken`: the token pair `refresh`
      issues for it is answered with status 200; a token that does not decode
      to an email, or a signing failure, makes `refresh` throw an error
      without a code, which escapes `send` and the error handler answers 500.
      The table is never touched. */
  lemma RefreshWithToken(body: Value, t: UsersTable, now: int, jwt: Jwt)
    requires body.Obj? && Truthy(Field(body, "refreshToken"))
    ensures var settled := Refresh(Obj(map["token" := Field(body, "refreshToken")]), t, now, jwt).0;
      var (reply, after) := RefreshRoute(Obj(map["body" := body]), t, now, jwt);
      && after == t
      && (settled.Returns? ==> reply == Respond(Num(200), settled.value))
      && (settled.Throws? ==> reply == Escapes(InvalidStatus(Undefined)) && Handled(reply).status == Num(500))
  {
    var token := Field(body, "refreshToken");
    var req := Obj(map["body" := body]);
    assert Field(req, "body") == body;
    var parsed := RefreshParser(req);
    var v := Obj(map["token" := token]);
    assert parsed == Returns(v);
    var q := (a, u) => Refresh(a, u, now, jwt);
    RouteOfParsed(v, q, t);
    var args := QueryArgs(DbHandle, v);
    assert Field(args, "token") == token;
    assert Refresh(args, t, now, jwt) == Refresh(v, t, now, jwt);
    RefreshSettles(v, t, now, jwt);
    SendsUncoded(v, Refresh(v, t, now, jwt).0);
  }

  /** Results without `code` are sent with status 200; a thrown error
      without `code` escapes `send`. */
  lemma SendsUncoded(v: Value, settled: Outcome)
    requires settled.Returns? ==> settled.value.Obj? && "code" !in settled.value.fields
    requires settled.Throws? ==> settled.thrown.Error?
    ensures var c := AfterQuery(Context(Undefined, v, Undefined), settled, true);
      && (settled.Returns? ==> Send(c) == Respond(Num(200), settled.value))
      && (settled.Throws? ==> Send(c) == Escapes(InvalidStatus(Undefined)) && Handled(Send(c)).status == Num(500))
  {
    var c := AfterQuery(Context(Undefined, v, Undefined), settled, true);
    if settled.Returns? {
      assert Prop(settled.value, "code") == Some(Undefined);
    } else {
      assert Field(settled.thrown, "code") == Undefined;
      assert Send(c) == StatusJson(Undefined, ErrorBody(Field(settled.thrown, "message")));
    }
  }

  /** What `refresh` settles with: the two-token object, which carries no
      `code`, or an error. */
  lemma RefreshSettles(args: Value, t: UsersTable, now: int, jwt: Jwt)
    ensures var r := Refresh(args, t, now, jwt).0;
      && (r.Returns? ==> r.value.Obj? && "code" !in r.value.fields)
      && (r.Throws? ==> r.thrown.Error?)
  {
  }
}
