/** The server's request pipeline (server/middleware/): a parse stage, a
    query stage, the bearer-token check and the terminal `send`. Every stage
    reads and writes the per-request context `{error, queryParams, results}`
    and hands over to the next stage by calling `next`. */
module Pipeline {
  import opened Js
  import opened Strings

  /** The part of `req` that the stages write. */
  datatype Context = Context(error: Value, queryParams: Value, results: Value)

  /** The context of a request no stage has touched yet. */
  const Fresh := Context(Undefined, Undefined, Undefined)

  /** A stage made with `skipOnError` hands straight over when an error is
      already recorded. */
  predicate Skips(c: Context, skipOnError: bool)
  {
    Truthy(c.error) && skipOnError
  }

  /** The parse stage (parse.js): when it does not skip, the parser's return
      value becomes `queryParams` and a thrown value becomes `error`. */
  function AfterParse(c: Context, parsed: Outcome, skipOnError: bool): (r: Context)
    ensures r.results == c.results
    ensures Skips(c, skipOnError) ==> r == c
    ensures !Skips(c, skipOnError) && parsed.Returns? ==> r == c.(queryParams := parsed.value)
    ensures !Skips(c, skipOnError) && parsed.Throws? ==> r == c.(error := parsed.thrown)
  {
    if Skips(c, skipOnError) then c
    else match parsed
      case Returns(v) => c.(queryParams := v)
      case Throws(e) => c.(error := e)
  }

  /** The query stage (query.js) once the query's promise has settled: a
      resolved value becomes `results`, a rejection becomes `error`, whatever
      its shape. */
  function AfterQuery(c: Context, settled: Outcome, skipOnError: bool): (r: Context)
    ensures r.queryParams == c.queryParams
    ensures Skips(c, skipOnError) ==> r == c
    ensures !Skips(c, skipOnError) && settled.Returns? ==> r == c.(results := settled.value)
    ensures !Skips(c, skipOnError) && settled.Throws? ==> r == c.(error := settled.thrown)
  {
    if Skips(c, skipOnError) then c
    else match settled
      case Returns(v) => c.(results := v)
      case Throws(e) => c.(error := e)
  }

  /** The single argument a query receives: `{knex: req.db, ...req.queryParams}`.
      The spread copies an object's own fields, which override `knex`;
      undefined, null, numbers and booleans add nothing. Every parser of
      the routes returns an object, so the other values a spread can take
      apart (a string adds its indices as keys) never reach this point and
      are modelled as adding nothing. */
  function QueryArgs(db: Value, queryParams: Value): (args: Value)
    ensures args.Obj? && "knex" in args.fields
    ensures queryParams.Obj? ==> forall k :: k in queryParams.fields ==> Field(args, k) == queryParams.fields[k]
    ensures !(queryParams.Obj? && "knex" in queryParams.fields) ==> Field(args, "knex") == db
    ensures args.fields.Keys == {"knex"} + (if queryParams.Obj? then queryParams.fields.Keys else {})
  {
    Obj(map["knex" := db] + (if queryParams.Obj? then queryParams.fields else map[]))
  }

  /** What `jwt.verify` does with a token: accept it, or throw a
      `TokenExpiredError` or another error. */
  datatype Verdict = Verified | TokenExpired | Rejected

  const BearerPrefix := "Bearer "
  const MissingBearer := Coded(401, "Authorization header ('Bearer token') not found")
  const ExpiredToken := Coded(401, "JWT token has expired")
  const InvalidToken := Coded(401, "Invalid JWT token")

  /** The token the authorization stage checks: the header with its leading
      "Bearer " removed, when the header is present and starts with it. */
  function BearerToken(headers: map<string, string>): (t: Option<string>)
    ensures t.Some? <==> "authorization" in headers && StartsWith(headers["authorization"], BearerPrefix)
    ensures t.Some? ==> BearerPrefix + t.value == headers["authorization"]
  {
    if "authorization" in headers && StartsWith(headers["authorization"], BearerPrefix)
    then Some(headers["authorization"][|BearerPrefix|..])
    else None
  }

  /** The error the authorization stage leaves in the context: the prior one
      when the token verifies, otherwise the 401 error for the failure. */
  function AuthorizationError(prior: Value, headers: map<string, string>, verify: string -> Verdict): (e: Value)
    ensures BearerToken(headers).None? ==> e == MissingBearer
    ensures BearerToken(headers).Some? ==>
      e == match verify(BearerToken(headers).value)
           case Verified => prior
           case TokenExpired => ExpiredToken
           case Rejected => InvalidToken
  {
    match BearerToken(headers)
    case None => MissingBearer
    case Some(token) =>
      match verify(token)
      case Verified => prior
      case TokenExpired => ExpiredToken
      case Rejected => InvalidToken
  }

  /** What the server does with a request once `send` (or a route handler)
      has run: answers with a status and a JSON body; lets an exception
      escape to Express's default error handler; or never answers (a
      rejected promise nobody catches). */
  datatype Reply = Respond(status: Value, body: Value) | Escapes(thrown: Value) | Unanswered(rejection: Value)

  /** The JSON body of an error answer. */
  function ErrorBody(message: Value): (b: Value)
    ensures Field(b, "error") == Bool(true) && Field(b, "message") == message
  {
    Obj(map["error" := Bool(true), "message" := message])
  }

  /** The status Node's `writeHead` accepts for the value given to
      `res.status`: the value converted to a number and then to a 32-bit
      integer (`code |= 0`), when that lies in 100..999. */
  function StatusOf(code: Value): (s: Option<int>)
    ensures s.Some? ==> 100 <= s.value <= 999
    ensures code.Num? && 100 <= code.n <= 999 ==> s == Some(code.n)
    ensures code.Undefined? || code.NaN? || code.Bool? || code.Obj? || code.Error? ==> s.None?
    ensures s.Some? <==> ToNumber(code).Num? && 100 <= ToInt32(ToNumber(code).n) <= 999
  {
    var n := ToNumber(code);
    if n.Num? && 100 <= ToInt32(n.n) <= 999 then Some(ToInt32(n.n)) else None
  }

  /** The RangeError `writeHead` throws for a status it does not accept. */
  function InvalidStatus(code: Value): (e: Value)
    ensures e.Error? && e.name == "RangeError" && !Truthy(Field(e, "status"))
  {
    Error("RangeError", "Invalid status code: " + ToStr(code))
  }

  /** `res.status(code).json(body)`: the answer goes out with the status
      `writeHead` makes of `code`, or writing it throws a RangeError. */
  function StatusJson(code: Value, body: Value): (r: Reply)
    ensures r.Respond? <==> StatusOf(code).Some?
    ensures r.Respond? ==> r.status == Num(StatusOf(code).value) && r.body == body
    ensures r.Escapes? ==> r.thrown == InvalidStatus(code)
    ensures !r.Unanswered?
  {
    match StatusOf(code)
    case Some(n) => Respond(Num(n), body)
    case None => Escapes(InvalidStatus(code))
  }

  /** `send` (send.js): an error is answered with its own `code` as the status
      and `{error: true, message}`; otherwise the results are the body, with
      their `code` as the status when it is truthy and 200 when it is not.
      Reading `code` of undefined or null results throws, and so does writing
      a status outside 100..999 (an error without a numeric `code`, say). */
  function Send(c: Context): (r: Reply)
    ensures !r.Unanswered?
    ensures Truthy(c.error) ==>
      var code := Field(c.error, "code");
      && (r.Respond? <==> StatusOf(code).Some?)
      && (r.Respond? ==> r.status == Num(StatusOf(code).value) && r.body == ErrorBody(Field(c.error, "message")))
      && (r.Escapes? ==> r.thrown == InvalidStatus(code))
    ensures !Truthy(c.error) && Prop(c.results, "code").None? ==> r == Escapes(PropertyOfNothing)
    ensures !Truthy(c.error) && Prop(c.results, "code").Some? ==>
      var code := Field(c.results, "code");
      && (r.Respond? <==> !Truthy(code) || StatusOf(code).Some?)
      && (r.Respond? ==> r.body == c.results)
      && (r.Respond? ==> (r.status == Num(200) <==> !Truthy(code) || StatusOf(code) == Some(200)))
      && (r.Escapes? ==> r.thrown == InvalidStatus(code))
  {
    if Truthy(c.error) then
      StatusJson(Field(c.error, "code"), ErrorBody(Field(c.error, "message")))
    else
      match Prop(c.results, "code")
      case None => Escapes(PropertyOfNothing)
      case Some(code) => StatusJson(if Truthy(code) then code else Num(200), c.results)
  }

  /** The body of the page the application's error handler renders. */
  function ErrorPage(message: Value): (b: Value)
    ensures Field(b, "view") == Str("error") && Field(b, "message") == message
  {
    Obj(map["view" := Str("error"), "message" := message])
  }

  /** The application's error handler (app.js): an exception that escapes a
      stage is answered with the thrown value's `status`, or 500 when it has
      none, and the rendered error page. Answers and unanswered requests are
      left as they are. */
  function Handled(r: Reply): (f: Reply)
    ensures !f.Escapes?
    ensures r.Respond? || r.Unanswered? ==> f == r
    ensures r.Escapes? ==> f.Respond? && Field(f.body, "message") == Field(r.thrown, "message")
    ensures r.Escapes? && !Truthy(Field(r.thrown, "status")) ==> f.status == Num(500)
    ensures r.Escapes? && Truthy(Field(r.thrown, "status")) ==> f.status == Field(r.thrown, "status")
  {
    match r
    case Escapes(e) =>
      var status := Field(e, "status");
      Respond(if Truthy(status) then status else Num(500), ErrorPage(Field(e, "message")))
    case _ => r
  }

  /** The request object as the stages see it. The route's parser reads
      `incoming` (its body, params and query); `db` is the knex instance. */
  class Request {
    const incoming: Value
    const headers: map<string, string>
    const db: Value
    var error: Value
    var queryParams: Value
    var results: Value
    /** How many times a stage has called `next`. */
    var nextCalls: nat

    constructor (incoming: Value, headers: map<string, string>)
      ensures this.incoming == incoming && this.headers == headers && db == DbHandle
      ensures Ctx() == Fresh && nextCalls == 0
    {
      this.incoming := incoming;
      this.headers := headers;
      db := DbHandle;
      error := Undefined;
      queryParams := Undefined;
      results := Undefined;
      nextCalls := 0;
    }

    function Ctx(): Context
      reads this
    {
      Context(error, queryParams, results)
    }

    /** The parse stage built by `parse(parser, skipOnError)`. */
    method Parse(parser: Value -> Outcome, skipOnError: bool := true) returns (invoked: bool)
      modifies this`error, this`queryParams, this`nextCalls
      ensures invoked <==> !Skips(old(Ctx()), skipOnError)
      ensures Ctx() == AfterParse(old(Ctx()), parser(incoming), skipOnError)
      ensures nextCalls == old(nextCalls) + 1
    {
      if Truthy(error) && skipOnError {
        invoked := false;
        nextCalls := nextCalls + 1;
        return;
      }
      invoked := true;
      match parser(incoming) {
        case Returns(v) => queryParams := v;
        case Throws(e) => error := e;
      }
      nextCalls := nextCalls + 1;
    }

    /** The query stage built by `query(query, skipOnError)`. The query works
        on a database `store`; it is called with `QueryArgs` and its promise
        settles with an outcome and the database's new state. */
    method Query<T>(query: (Value, T) -> (Outcome, T), store: Store<T>, skipOnError: bool := true)
      returns (invoked: bool)
      modifies this`error, this`results, this`nextCalls, store
      ensures invoked <==> !Skips(old(Ctx()), skipOnError)
      ensures !invoked ==> Ctx() == old(Ctx()) && store.state == old(store.state)
      ensures invoked ==>
        var (settled, after) := query(QueryArgs(db, old(queryParams)), old(store.state));
        Ctx() == AfterQuery(old(Ctx()), settled, skipOnError) && store.state == after
      ensures nextCalls == old(nextCalls) + 1
    {
      if Truthy(error) && skipOnError {
        invoked := false;
        nextCalls := nextCalls + 1;
        return;
      }
      invoked := true;
      var (settled, after) := query(QueryArgs(db, queryParams), store.state);
      store.state := after;
      match settled {
        case Returns(v) => results := v;
        case Throws(e) => error := e;
      }
      nextCalls := nextCalls + 1;
    }

    /** The authorization stage (authorization.js). It never answers itself,
        never stores the token's claims, and calls `next` once. */
    method Authorize(verify: string -> Verdict) returns (checked: Option<string>)
      modifies this`error, this`nextCalls
      ensures checked == BearerToken(headers)
      ensures error == AuthorizationError(old(error), headers, verify)
      ensures nextCalls == old(nextCalls) + 1
    {
      checked := BearerToken(headers);
      if checked.None? {
        error := MissingBearer;
        nextCalls := nextCalls + 1;
        return;
      }
      match verify(checked.value) {
        case Verified =>
        case TokenExpired => error := ExpiredToken;
        case Rejected => error := InvalidToken;
      }
      nextCalls := nextCalls + 1;
    }
  }

  /** A database whose state a query reads and replaces. */
  class Store<T> {
    var state: T

    constructor (initial: T)
      ensures state == initial
    {
      state := initial;
    }
  }

  /** One of the middleware stages, with the outcome its callee produces. */
  datatype Stage = ParseStage(parsed: Outcome, skipOnError: bool) | QueryStage(settled: Outcome, skipOnError: bool)

  function Step(c: Context, s: Stage): Context
  {
    match s
    case ParseStage(o, skip) => AfterParse(c, o, skip)
    case QueryStage(o, skip) => AfterQuery(c, o, skip)
  }

  /** A chain of stages run in order. */
  function Run(c: Context, stages: seq<Stage>): Context
    decreases |stages|
  {
    if |stages| == 0 then c else Run(Step(c, stages[0]), stages[1..])
  }

  predicate AllSkipOnError(stages: seq<Stage>)
  {
    forall i :: 0 <= i < |stages| ==> stages[i].skipOnError
  }

  /** Once an error is recorded, a chain of stages made with `skipOnError`
      changes nothing, and `send` reports that error whatever the results. */
  lemma {:induction false} ErrorSkipsRest(c: Context, stages: seq<Stage>)
    requires Truthy(c.error) && AllSkipOnError(stages)
    ensures Run(c, stages) == c
    ensures Send(Run(c, stages)) == StatusJson(Field(c.error, "code"), ErrorBody(Field(c.error, "message")))
    decreases |stages|
  {
    if |stages| > 0 {
      assert stages[0].skipOnError;
      assert AllSkipOnError(stages[1..]) by {
        forall i | 0 <= i < |stages[1..]| ensures stages[1..][i].skipOnError {
          assert stages[1..][i] == stages[i + 1];
        }
      }
      ErrorSkipsRest(Step(c, stages[0]), stages[1..]);
    }
  }

  /** The first error wins: under `skipOnError`, once a stage records an error
      the final context holds exactly that error. */
  lemma {:induction false} FirstErrorWins(c: Context, stages: seq<Stage>, k: nat)
    requires AllSkipOnError(stages) && k < |stages|
    requires !Truthy(Run(c, stages[..k]).error) && Truthy(Run(c, stages[..k + 1]).error)
    ensures Run(c, stages) == Run(c, stages[..k + 1])
  {
    RunSplit(c, stages, k + 1);
    ErrorSkipsRest(Run(c, stages[..k + 1]), stages[k + 1..]);
  }

  lemma {:induction false} RunSplit(c: Context, stages: seq<Stage>, k: nat)
    requires k <= |stages|
    ensures Run(c, stages) == Run(Run(c, stages[..k]), stages[k..])
    decreases k
  {
    if k > 0 {
      assert stages[..k][0] == stages[0] && stages[..k][1..] == stages[1..][..k - 1];
      assert stages[k..] == stages[1..][k - 1..];
      RunSplit(Step(c, stages[0]), stages[1..], k - 1);
    } else {
      assert stages[..0] == [] && stages[0..] == stages;
    }
  }

  /** An error beats results: with the same error, `send` gives the same
      answer whatever the results and query parameters are, and an integer
      code in 100..999 is the status. */
  lemma ErrorBeatsResults(e: Value, q1: Value, r1: Value, q2: Value, r2: Value)
    requires Truthy(e)
    ensures Send(Context(e, q1, r1)) == Send(Context(e, q2, r2))
    ensures Field(e, "code").Num? && 100 <= Field(e, "code").n <= 999 ==>
      Send(Context(e, q1, r1)) == Respond(Field(e, "code"), ErrorBody(Field(e, "message")))
  {
  }

  /** A value thrown without a `code` (such as the plain Error of `toDate`)
      reaches `res.status(undefined)`: writing the answer throws a RangeError,
      and the application's error handler answers 500 with the error page. */
  lemma CodelessErrorEscapes(message: string, c: Context)
    requires c.error == PlainError(message)
    ensures Send(c) == Escapes(InvalidStatus(Undefined))
    ensures Handled(Send(c)) == Respond(Num(500), ErrorPage(Str("Invalid status code: undefined")))
  {
    assert InvalidStatus(Undefined) == Error("RangeError", "Invalid status code: undefined");
  }

  /** Resolved results whose `code` is truthy but not a status `writeHead`
      accepts (a code of 1000, or a text that is no number) are never sent:
      the error handler answers 500 instead. */
  lemma BadResultCodeEscapes(c: Context)
    requires !Truthy(c.error) && c.results.Obj? && Truthy(Field(c.results, "code"))
    requires StatusOf(Field(c.results, "code")).None?
    ensures Send(c).Escapes? && Handled(Send(c)).status == Num(500)
  {
  }

  /** A stage made without `skipOnError` runs even after an error; a parser
      that then returns leaves the prior error in place. */
  lemma ParseWithoutSkip(c: Context, v: Value)
    ensures AfterParse(c, Returns(v), false) == Context(c.error, v, c.results)
  {
  }
}
