# cineLib, modelled in Dafny

cineLib is a movie catalogue. An Express server answers REST requests from
an IMDb-derived database through knex: movie search with pagination, movie
details, and user registration, login and token refresh. A person details
route is written (`server/routes/people.js`) but the application does not
mount it (`server/app.js` mounts only `/user` and `/movies`). A React client
calls the server. The client has a home page of recent movies by year,
a searchable movies page with a table view and a card view, a movie details
page, hooks that fetch movie details in the background, an IndexedDB-backed
fetch cache, and a hook that holds the signed-in user.

This project models the core of both sides:

- **the server's request pipeline** (`server/middleware`): the parse, query
  and authorization stages and `send`. The request context is a class
  (`Pipeline.Request`) whose fields the stages update. Each stage is
  specified by a pure function (`AfterParse`, `AfterQuery`,
  `AuthorizationError`). `Send` says which status and body answer a request,
  and when an exception escapes to the application's error handler instead
  (`Handled`, which answers 500).
- **the value converters** (`server/utils/types.js`): `toNumber`, and
  `toDate` with its `YYYY-MM-DD` grammar and calendar checks.
- **the routes** (`server/routes`):
  - movie search: the filters, the offset, the count and data queries, and
    the pagination block;
  - movie details, and person details as the unmounted route is written;
  - `/user/register`, `/user/login` and `/user/refresh`.

  The database is an in-memory table of rows. JSON Web Tokens are an oracle
  passed as a parameter.
- **the client**:
  - the fetch cache (`utils/fetchTransform.js`) over an abstract IndexedDB;
  - the background details loader (`utils/movieDetailsLoader.js`), as a
    class with an imperative loop;
  - the `useMovieDetails`, `useDetailedMovies` and `useAuth` hooks;
  - the pure logic and state changes of the home, movies and movie details
    pages, both the routed copies under `pages/<Name>/` and the older
    copies directly under `pages/`.

JavaScript values are `Js.Value`. A property read on `undefined` or `null`
is a `TypeError` outcome, and truthiness follows JavaScript's rules. Numbers
are integers or NaN. Promise chains become `Outcome`s and settlements. React
state setters become class fields or returned values.

## Model

| member | source | states |
|---|---|---|
| Pipeline.AfterParse | server/middleware/parse.js:7-19 | a stage that skips (truthy error and skipOnError) leaves the context as it is; otherwise the parser's value becomes `queryParams`, or its exception becomes `error`; `results` is never touched |
| Pipeline.AfterQuery | server/middleware/query.js:7-20 | the same for a query: a skipped stage changes nothing; a resolved value becomes `results`, a rejection becomes `error`; `queryParams` is never touched |
| Pipeline.QueryArgs | server/middleware/query.js:12 | the query's argument always has `knex`; every field of `queryParams` overrides it; its keys are exactly `knex` plus the parameters' keys |
| Pipeline.BearerToken | server/middleware/authorization.js:3-11 | a token exists exactly when the `authorization` header starts with `Bearer `, and prefix plus token give back the header |
| Pipeline.AuthorizationError | server/middleware/authorization.js:3-21 | no bearer header gives the 401 "not found" error; an expired token gives the 401 expiry error; any other failure gives the 401 "Invalid JWT token" error; a verified token keeps the prior error |
| Pipeline.ErrorBody | server/middleware/send.js:3 | the error answer carries `error: true` and the error's message |
| Pipeline.StatusOf | server/middleware/send.js:3 | the status a code gives lies in 100..999; an integer in that range is its own status; undefined, NaN, booleans, objects and errors give none |
| Pipeline.InvalidStatus | server/middleware/send.js:3 | the value thrown for a bad status is a `RangeError` without a `status` |
| Pipeline.StatusJson | server/middleware/send.js:3 | `res.status(code).json(body)` answers with the accepted status and the body exactly when the code gives one, and otherwise throws the RangeError |
| Pipeline.ErrorPage | server/app.js:58-66 | the error page carries the `error` view and the message |
| Pipeline.Handled | server/app.js:58-66 | an escaped exception is answered with its `status`, or 500 when it has none, and the error page with its message; answers and unanswered requests stay as they are; nothing escapes afterwards |
| Pipeline.Send | server/middleware/send.js:1-8 | with an error, the answer is its `code` as status with `{error: true, message}` exactly when that code is a status `writeHead` accepts, and otherwise the RangeError escapes; without one, undefined or null results escape with a `TypeError`; other results are the body, the status is their truthy `code` or 200, and a truthy code that is no valid status escapes with the RangeError |
| Pipeline.Request.constructor | server/middleware/parse.js:10 | a new request has no error, no parameters, no results and no `next` calls |
| Pipeline.Request.Parse | server/middleware/parse.js:7-19 | the parser runs exactly when the stage does not skip; the new context is `AfterParse` of the old one; `next` is called exactly once |
| Pipeline.Request.Query | server/middleware/query.js:7-20 | the query runs exactly when the stage does not skip, on `QueryArgs`; a skip leaves context and database alone; the new context is `AfterQuery`; `next` is called exactly once |
| Pipeline.Request.Authorize | server/middleware/authorization.js:2-25 | the checked token is `BearerToken` of the headers; the new error is `AuthorizationError` of the old one; `next` is called exactly once, on every path |
| Pipeline.Store.constructor | server/middleware/query.js:12 | the database a query sees starts in the given state |
| Pipeline.ErrorSkipsRest | server/middleware/parse.js:10 | once the context holds an error, any chain of skipping stages leaves it as it is, and `send` answers `res.status(code).json(...)` of that error's code and message |
| Pipeline.FirstErrorWins | server/middleware/query.js:10 | the stage that raises the first error decides the final context; the later skipping stages change nothing |
| Pipeline.ErrorBeatsResults | server/middleware/send.js:2-3 | with an error, the answer depends only on the error; an integer code in 100..999 is its status |
| Pipeline.CodelessErrorEscapes | server/middleware/send.js:3 | a plain `Error` (no `code`) makes `res.status(undefined)` throw the "Invalid status code: undefined" RangeError, which the error handler answers with 500 |
| Pipeline.BadResultCodeEscapes | server/middleware/send.js:6 | results whose truthy `code` is no valid status are never sent: the error handler answers 500 |
| Pipeline.ParseWithoutSkip | server/middleware/parse.js:10-12 | with skipOnError false the parser runs even after an error, its value replaces `queryParams`, and the error stays |
| Types.ToNumber | server/utils/types.js:6-8 | a falsy value comes back unchanged; a truthy one becomes a number or NaN |
| Types.ToNumberOfDecimalText | server/utils/types.js:7 | the decimal text of n converts to n; the empty string and undefined come back unchanged |
| Types.IsLeapYear | server/utils/types.js:28 | the Gregorian leap-year rule; year 0 is a leap year and 1900 is not (`LeapDayOfYearZeroText`) |
| Types.DaysInMonth | server/utils/types.js:31-44 | every month has 28 to 31 days |
| Types.Segment | server/utils/types.js:22-24 | a part of the wrong width is undefined; one of the right width is a number or NaN |
| Types.Check | server/utils/types.js:16-51 | an accepted date has a month from 1 to 12 and a day within that month of that year |
| Types.NewDate | server/utils/types.js:47-48 | `new Date(y, m, d)` takes years 0 to 99 as 1900 plus the year; an in-range day gives exactly that date |
| Types.ToDate | server/utils/types.js:16-52 | `toDate` throws exactly when the text fails the format or calendar check |
| Types.ToDateFullYear | server/utils/types.js:47-48 | the corrected conversion fails on exactly the same inputs as `toDate` |
| Types.CheckFormat | server/utils/types.js:16-48 | every calendar date of years 0 to 9999, written `YYYY-MM-DD`, is accepted with its own parts |
| Types.ToDateRoundTrip | server/utils/types.js:47-48 | for years 100 to 9999, the written date converts back to itself, with the month counted from 0 |
| Types.ToDateFullYearRoundTrip | server/utils/types.js:47-48 | the corrected conversion round-trips every date of years 0 to 9999 |
| Types.ToDateEarlyYears | server/utils/types.js:48 | as written, a date of years 0 to 99 converts to the same month and day in 1900 plus the year |
| Types.ToDateLeapDayShift | server/utils/types.js:28 | 29 February of a leap year 0 to 99 whose 1900s twin is not a leap year is accepted but converts to 1 March of the 1900s year |
| Types.LeapDayOfYearZeroText | server/utils/types.js:28 | year 0 is a leap year and 1900 is not, so "0000-02-29" is an instance of the shift |
| Types.ValidPartsMeansCalendar | server/utils/types.js:26-44 | the validity test on the three parts holds exactly when they form a calendar date of a non-negative year |
| Types.CheckAcceptsExactly | server/utils/types.js:17-47 | a text is accepted exactly when it has three dash-separated parts of widths 4, 2 and 2 whose numeric conversions form a calendar date of a non-negative year |
| Types.RejectionIsPlainError | server/utils/types.js:51 | a rejected string or falsy value throws the "Invalid date format" `Error`; a truthy non-string throws a `TypeError` from `split` |
| Types.RejectsWrongDashCount | server/utils/types.js:19 | a text without exactly two dashes is rejected |
| Types.CheckFormatted | server/utils/types.js:26-44 | a written date with two-digit month and day is accepted exactly when it is a calendar date |
| Movies.SelectQueryFromMap | server/routes/movies.js:18-22 | one select clause per mapping, each `column as alias` |
| Movies.SelectFieldsReadBack | server/routes/movies.js:20 | each clause splits back on spaces into its column, `as` and its alias |
| Movies.Project | server/routes/movies.js:48 | every alias of the map is a key of the projected row, and an alias that no later entry reuses holds its column's value from the row |
| Movies.ProjectKeys | server/routes/movies.js:48 | the projected row has no key besides the map's aliases |
| Movies.BasicsProjection | server/routes/movies.js:8-16 | a search result row holds each basics column under its alias: `title` is `primaryTitle`, `imdbID` is `tconst`, and so on |
| Movies.Filter | server/routes/movies.js:37-42 | the kept rows are exactly the rows that match every `LIKE` filter, and are no more than the rows |
| Movies.SearchFilters | server/routes/movies.js:37-42 | at most two filters, one for the title and one for the year |
| Movies.Offset | server/routes/movies.js:31 | the offset is a number exactly when the page converts to one, and then it is (page − 1) × 100 |
| Movies.OffsetRows | server/routes/movies.js:50 | a numeric offset skips exactly that many rows |
| Movies.SearchMovies | server/routes/movies.js:24-62 | a truthy non-string year throws a `TypeError`; a year that is not four digits throws "Invalid year format"; the queries are built exactly when the year is absent or valid and the offset is not negative, and then they are the count and data queries on `basics` with the title/year filters, 100 rows and the page's offset; a negative offset throws the offset error |
| Movies.FourDigits | server/routes/movies.js:26 | the `^\d{4}$` test of the year, used by `Movies.SearchMovies` and `Movies.SearchRoute` |
| Movies.RunData | server/routes/movies.js:47-57 | the page holds as many rows as match from the offset on, at most the limit, and row i is the projection of matching row offset + i |
| Movies.LastPage | server/routes/movies.js:148 | the last page is the least page count that covers all matching rows |
| Movies.LastPageOfMock | server/routes/movies.js:148 | 12184 matches give 122 pages of 100 |
| Movies.Pagination | server/routes/movies.js:146-153 | total, lastPage, perPage 100, currentPage the page as given, from the offset and to the offset plus the rows shown |
| Movies.SearchBody | server/routes/movies.js:155-158 | `data` holds the page's rows in order, and `pagination` is the block above |
| Movies.SearchAnswerPage | server/routes/movies.js:141-158 | a search answers 200 with at most 100 rows; row i of `data` is the projection of matching row offset + i, and there are as many as the matches after the offset allow; the pagination counts all matches |
| Movies.SearchAnswer | server/routes/movies.js:141-158 | the 200 answer of a search whose queries both run; what it holds is stated by `Movies.SearchAnswerPage` |
| Movies.SearchRoute | server/routes/movies.js:131-163 | the handler escapes exactly when the year is rejected (a non-string throws a TypeError, a string not of four digits the year error) or the page gives a negative offset; otherwise a database failure is answered 400 with its message, and without one the answer is `SearchAnswer` for the title, year and page (page 1 when falsy); never unanswered |
| Movies.WithoutNulls | server/routes/movies.js:124 | the kept ratings are exactly the non-null ones, in their original order |
| Movies.SplitValue | server/routes/movies.js:101 | a string splits on commas into texts; anything else throws a `TypeError` |
| Movies.Principal | server/routes/movies.js:104-109 | a row maps exactly when its characters are a string; the principal keeps the row's id, name and category and splits the characters |
| Movies.MapRows | server/routes/movies.js:103-110 | the mapping succeeds exactly when every row maps, and then gives one result per row, in order |
| Movies.MapObjects | server/routes/movies.js:103 | the same over database rows |
| Movies.MovieDetails | server/routes/movies.js:82-129 | no rows throw "No record exists of a movie with this ID"; the details are built exactly when there is a row, its genres are a string and every principal maps |
| Movies.DetailRows | server/routes/movies.js:85-91 | the joined query returns no more rows than the join |
| Movies.WhereEquals | server/routes/movies.js:88 | the kept rows are exactly those whose column equals the value |
| Movies.MovieDetailsShape | server/routes/movies.js:97-110 | title, plot and genres come from the first row; there is one principal per row, with that row's id, name and split characters |
| Movies.MovieDetailsRatings | server/routes/movies.js:111-124 | the ratings are the IMDb, Rotten Tomatoes and Metacritic entries in that order, with exactly the null-valued ones removed |
| Movies.DataRoute | server/routes/movies.js:165-172 | a movie whose record builds is answered 200 with that record as JSON; otherwise, and so for an unknown id, the request is left unanswered with the rejection (it is never caught) |
| Movies.DetailsJson | server/routes/movies.js:95-126 | the JSON object carries each field of the record, the ratings as `{source, value}` in order |
| People.PersonSelectList | server/routes/people.js:5-21 | nine select clauses, the first `names.nconst as id`, each splitting back into column, `as` and alias |
| People.Role | server/routes/people.js:40-46 | a row maps exactly when its characters are a string; the role keeps the movie's name, id, category and rating and splits the characters |
| People.PersonData | server/routes/people.js:23-49 | no rows throw "No record exists of a person with this ID"; a person is built exactly when there are rows and every row's characters are a string |
| People.PersonDataShape | server/routes/people.js:35-48 | name, birth and death year come from the first row; there is one role per row, in order |
| People.PersonRows | server/routes/people.js:25-29 | one row per joined row of that person, each the `PERSON_MAP` projection of that row |
| People.PersonAnswer | server/routes/people.js:54-58 | always answered; a person whose record builds gets 200 with that record as JSON; otherwise 400 with the thrown message, which for an unknown person is the "No record" message |
| People.PersonJson | server/routes/people.js:35-48 | the JSON object carries the name, the birth and death years and the roles |
| People.PersonRoute | server/routes/people.js:51-59 | the route runs authorization, so `req.error` becomes `AuthorizationError` of the headers and the token verdict, and only `error` and `nextCalls` change; it then answers `PersonAnswer` of the id, whatever the authorization says; `next` is called once |
| Users.WithTable | server/routes/users.js:14-27 | the table exists afterwards; an existing table is left alone; a new one keeps the rows |
| Users.RegisterUser | server/routes/users.js:34-66 | a missing email or password is 400 with the table unchanged; a known email is 409 with the table unchanged; otherwise 201, and the user is appended with no sessions |
| Users.Default | server/routes/users.js:72-74 | an undefined field takes the default, and any other value is kept as it is |
| Users.ExpiryText | server/routes/users.js:178 | a truthy expiry is its seconds; otherwise `longExpiry` gives "365d", and the fallback applies without it |
| Users.CreateToken | server/routes/users.js:177-194 | signing fails exactly when the expiry text is not a timespan; a token is issued now and expires after that span |
| Users.TokenBody | server/routes/users.js:135-139 | the token, its type and `expires_in` as expiry minus issue time |
| Users.TokenPair | server/routes/users.js:134-145 | `bearerToken` is the bearer token's body of type "Bearer" and `refreshToken` the refresh token's of type "Refresh", each `expires_in` being its own lifetime |
| Users.UpdateSessions | server/routes/users.js:120-123 | every row of that email takes the new expiries; all rows keep their email and password and their place |
| Users.LoginTokens | server/routes/users.js:104-113 | the two tokens exist exactly when both expiry texts are timespans, and then each lasts the span of its text |
| Users.LoginReply | server/routes/users.js:133-145 | the login answer exists exactly when the tokens do, otherwise the timespan error; its body is the token pair: "Bearer" and "Refresh" tokens signed for the email with their expiry texts, each `expires_in` the span of its text |
| Users.LoginUser | server/routes/users.js:68-146 | a missing email or password throws the 400 error, a missing table its error, and credentials on no row the 401 error, each with the table unchanged; matching credentials answer `LoginReply`, and success records the two expiries on that user's rows |
| Users.Refresh | server/routes/users.js:148-174 | a refresh never changes the table |
| Users.RegisterParser | server/routes/users.js:218-223 | the parser throws exactly when the body is missing, with the `TypeError`; otherwise it gives an object of exactly the keys `email` and `password`, holding the body's email and password |
| Users.LoginParser | server/routes/users.js:231-240 | the parser throws the TypeError exactly when the body is missing; otherwise its five keys carry the body's email, password and longExpiry, and the expiry fields renamed as the query expects |
| Users.RefreshParser | server/routes/users.js:248-259 | the parser gives the token exactly when the body's refresh token is truthy; otherwise it throws the 400 "refresh token required" error |
| Users.Serve | server/routes/users.js:216-226 | parse, query and send run in order; the answer and the new database are `Route` of the parser's outcome; `next` is called twice |
| Users.RegisterRoute | server/routes/users.js:215-225 | `/register` as parse, query and send on the users table; its replies are stated by `Users.RegisterReplies` |
| Users.RegisterReplies | server/routes/users.js:216-226 | `/register` answers 400, 409 or 201 "User created" as `RegisterUser` decides, and the table changes only on 201 |
| Users.RouteOfParsed | server/middleware/query.js:12-16 | a successful parse runs the query on the parsed parameters and sends what it settles with |
| Users.SendsCoded | server/middleware/send.js:2-3 | a thrown coded error with a code in 100..999 is answered with that code and its message |
| Users.SendsResult | server/middleware/send.js:6 | a resolved result with a code in 100..999 is answered with that code and the result as body |
| Users.RegisterThenLogin | server/routes/users.js:93-102 | after a registration the credentials are found, so the login answers `LoginReply`: the token pair whenever both expiry texts are timespans, otherwise the timespan error |
| Users.RegisterTwice | server/routes/users.js:45-53 | registering the same email again gives 409 and leaves the table as it is |
| Users.LoginRejections | server/routes/users.js:93-102 | a login whose credentials are on no row is answered "Incorrect email or password" |
| Users.LoginUpdatesOnlyThatEmail | server/routes/users.js:116-123 | a login changes only the rows of that email, and no email or password anywhere |
| Users.LoginExpiresIn | server/routes/users.js:134-145 | the login answer's `expires_in` values are the spans of the chosen expiry texts |
| Users.LoginExpiryChoice | server/routes/users.js:72-74 | with the expiry fields omitted the spans are "600s" and "86400s" whatever `longExpiry` says; `longExpiry` matters only with an explicit falsy expiry |
| Users.RefreshIgnoresVerification | server/routes/users.js:148-160 | a refresh signs "10m" and "24h" tokens for whatever email the token decodes to, without verifying it |
| Users.RefreshRoute | server/routes/users.js:246-262 | `/refresh` as parse, query and send; stated by `Users.RefreshWithoutToken` and `Users.RefreshWithToken` |
| Users.RefreshWithToken | server/routes/users.js:246-262 | a truthy refresh token gets status 200 with the token pair `refresh` issues; when `refresh` throws, the error has no code and escapes to the 500 handler; the table is unchanged |
| Users.RefreshSettles | server/routes/users.js:148-174 | `refresh` resolves with an object without `code`, or throws an error |
| Users.RefreshWithoutToken | server/routes/users.js:250-255 | a body without a truthy refresh token gets 400 "refresh token required" and the query never runs |
| DetailsLoader.Delay | client/src/utils/movieDetailsLoader.js:41-48 | the first batch waits nothing, the next movie waits for the whole batch plus one, and every later movie waits one step |
| DetailsLoader.TotalDelay | client/src/utils/movieDetailsLoader.js:41-48 | the sum of the first n waits; stated by `TotalDelayOf` |
| DetailsLoader.TotalDelayOf | client/src/utils/movieDetailsLoader.js:41-48 | after the first batch, the waits of n movies add up to n steps of 1800 ms |
| DetailsLoader.RequestsInOrder | client/src/utils/movieDetailsLoader.js:43-50 | n movies give n requests, one per movie in index order, each to that movie's data endpoint with its wait |
| DetailsLoader.RecordedLeavesOtherKeys | client/src/utils/movieDetailsLoader.js:24-29 | a key that no successful fetch sets keeps its entry, or stays absent |
| DetailsLoader.RecordedByLastSuccess | client/src/utils/movieDetailsLoader.js:24-29 | the last successful fetch of a key decides its entry |
| DetailsLoader.LastDataUntouched | client/src/utils/movieDetailsLoader.js:52-54 | a movie whose fetches all fail keeps its `data` |
| DetailsLoader.LastDataOf | client/src/utils/movieDetailsLoader.js:23 | otherwise a movie holds the data of its last successful fetch |
| DetailsLoader.ExtendSummaries | client/src/utils/movieDetailsLoader.js:43-55 | one more attempt extends the recorded details, the success count and every movie's data by that attempt |
| DetailsLoader.MovieDetailsLoader.constructor | client/src/utils/movieDetailsLoader.js:4-7 | the loader holds the given details and has updated no movies |
| DetailsLoader.MovieDetailsLoader.FetchAndUpdate | client/src/utils/movieDetailsLoader.js:16-31 | a null movie throws a `TypeError`; otherwise the fetch goes through `getEndpoint`; a success records the details under the id and sets the movie's data; a failure changes nothing |
| DetailsLoader.MovieDetailsLoader.LoadAt | client/src/utils/movieDetailsLoader.js:44-54 | one turn: the fetch with its delay; a success records the details and bumps the update count once; a failure is caught and changes nothing |
| DetailsLoader.MovieDetailsLoader.Advance | client/src/utils/movieDetailsLoader.js:43-55 | one turn of the loop keeps the loop's invariant for one more movie |
| DetailsLoader.MovieDetailsLoader.LoadDetails | client/src/utils/movieDetailsLoader.js:38-56 | one attempt per movie in order; the details are recorded by each success in turn; `setMovies` runs once per success; each movie holds its last fetched data; nothing is posted |
| MovieObjects.DataEndpoint | client/src/hooks/useDetailedMovies.js:11 | `/movies/data/${imdbID}`, the endpoint each details request goes to |
| MovieObjects.Movie.constructor | client/src/hooks/useMovieDetails.js:26 | a movie object holds the id, year and data it is given |
| MovieDetailsHook.FirstWithoutData | client/src/hooks/useMovieDetails.js:26 | the picked index is the first movie whose data is falsy, or the end when every movie has data |
| MovieDetailsHook.FirstWithoutDataAdvances | client/src/hooks/useMovieDetails.js:15-35 | giving the picked movie truthy data moves the pick strictly forward, so reruns of the effect end |
| MovieDetailsHook.DataOf | client/src/hooks/useMovieDetails.js:26 | the data of each movie, in order |
| MovieDetailsHook.Effect | client/src/hooks/useMovieDetails.js:16-35 | no movies, or none, starts nothing; otherwise it loads the movies from the first one without data, with a first batch of 0; it reruns exactly when a fetch updated the movies |
| DetailedMovies.Batches | client/src/hooks/useDetailedMovies.js:58-75 | one first batch of up to 10 movies, then one batch per remaining movie, in order; flattened they give back all the movies |
| DetailedMovies.FetchRecur | client/src/hooks/useDetailedMovies.js:15-33 | every request succeeding resolves with their values in order; a failing first request rejects with its error |
| DetailedMovies.FetchRecurRetriesForever | client/src/hooks/useDetailedMovies.js:25-30 | a failure after the first request leaves the promise pending for ever |
| DetailedMovies.WithDetails | client/src/hooks/useDetailedMovies.js:36-45 | the details after a `forEach`; stated by `WithDetailsKeepsOthers` and `WithDetailsLastWins` |
| DetailedMovies.WithDetailsKeepsOthers | client/src/hooks/useDetailedMovies.js:36-45 | keys of movies not in the batch keep their entries |
| DetailedMovies.WithDetailsLastWins | client/src/hooks/useDetailedMovies.js:36-45 | the last movie with a key decides that key's details |
| DetailedMovies.Chain | client/src/hooks/useDetailedMovies.js:78-84 | the reduced promise chain; stated by `ChainOfUndefinedTasks` and `ChainInOrder` |
| DetailedMovies.ChainOfUndefinedTasks | client/src/hooks/useDetailedMovies.js:78-84 | the reduce over the batches calls `.then` on undefined, so it rejects with a `TypeError` |
| DetailedMovies.ChainInOrder | client/src/hooks/useDetailedMovies.js:78-84 | a chain of tasks that all succeed resolves with their values in order |
| DetailedMovies.Present | client/src/hooks/useDetailedMovies.js:11 | with no null entries, the movies are the same objects in the same order |
| DetailedMovies.DetailRequests | client/src/hooks/useDetailedMovies.js:11 | one request per movie, to its data endpoint, in order |
| DetailedMovies.BatchValues | client/src/hooks/useDetailedMovies.js:11-36 | a batch assigns values exactly when it has no null movie and its `fetchRecur` resolves, and then one value per movie |
| DetailedMovies.AfterBatches | client/src/hooks/useDetailedMovies.js:36-45 | the details once the batches have run, in the order handed over |
| DetailedMovies.Assigned | client/src/hooks/useDetailedMovies.js:38 | the data a movie is last given by the batches |
| DetailedMovies.NextBatch | client/src/hooks/useDetailedMovies.js:73-75 | one more batch extends the details by its values and gives its movies their data; other movies keep what the earlier batches gave |
| DetailedMovies.Hook.constructor | client/src/hooks/useDetailedMovies.js:56 | the hook starts with no movies shown and no details |
| DetailedMovies.Hook.AddDetailsToMovies | client/src/hooks/useDetailedMovies.js:9-47 | a null movie throws a `TypeError` after the requests of the movies before it have started; otherwise every request starts and the batch settles as `FetchRecur` of them; on success each movie gets the value at its last position and the details are `WithDetails`; on a throw or a batch that never resolves the details and every movie's data stay as they were |
| DetailedMovies.Hook.ForEachAssign | client/src/hooks/useDetailedMovies.js:37-45 | the details are extended by the batch, and each movie's last occurrence holds its data |
| DetailedMovies.Hook.Transformer | client/src/hooks/useDetailedMovies.js:54-86 | the search results are shown at once; the transformer returns its input, and the chain over the batches rejects later with a `TypeError`; only a batch with a null movie makes the transformer throw; the details are `AfterBatches` of the batches handed over, and every movie holds the data `Assigned` to it by them, or its old data |
| DetailedMovies.Hook.HandAll | client/src/hooks/useDetailedMovies.js:63-75 | the batches go to `addDetailsToMovies` in order until one throws; the handed batches are those up to and including the throwing one, or all of them; the details and every movie's data are what the handed batches assign |
| FetchTransform.KeyOf | client/src/utils/fetchTransform.js:100-102 | the base and id an endpoint is cached under; stated by `KeyOfEndpoint` and `KeyOfJoined` |
| FetchTransform.StoreFor | client/src/utils/fetchTransform.js:104-111 | the object store a base goes to; stated by `RoutesOfDetailEndpoints` and `SearchIsNotRouted` |
| FetchTransform.KeyOfEndpoint | client/src/utils/fetchTransform.js:100-102 | the id holds no "/", and base, "/" and id give back the endpoint; an endpoint without "/" has an empty base |
| FetchTransform.KeyOfJoined | client/src/utils/fetchTransform.js:100-102 | a prefix, "/" and a "/"-free id split back into that prefix and id |
| FetchTransform.RoutesOfDetailEndpoints | client/src/utils/fetchTransform.js:104-111 | movie data endpoints go to the movies store and person endpoints to the people store, under their ids |
| FetchTransform.SearchIsNotRouted | client/src/utils/fetchTransform.js:104-111 | a search endpoint has base "/movies" and goes to no store |
| FetchTransform.Lookup | client/src/utils/fetchTransform.js:92-112 | without `indexedDB` the lookup throws; without support, or for an endpoint routed to no store, it gives null |
| FetchTransform.Save | client/src/utils/fetchTransform.js:120-139 | without `indexedDB` the write throws; without support or a store it changes nothing |
| FetchTransform.Checked | client/src/utils/fetchTransform.js:38-42 | a failed request stays failed; an undefined or null body throws a `TypeError`; a body with a truthy `error` is thrown, any other is returned |
| FetchTransform.Get | client/src/utils/fetchTransform.js:12-52 | a call makes at most one request |
| FetchTransform.GetWithoutSupport | client/src/utils/fetchTransform.js:94-96 | with the module as exported every call is one request and the checked response, and the cache is untouched |
| FetchTransform.GetWithoutIndexedDb | client/src/utils/fetchTransform.js:24-27 | without `indexedDB` every call throws a `TypeError` before any request |
| FetchTransform.GetHit | client/src/utils/fetchTransform.js:24-27 | a truthy stored record is returned at once, with no request |
| FetchTransform.GetErrorIsNotStored | client/src/utils/fetchTransform.js:40-45 | a response with a truthy `error` is thrown and never stored |
| FetchTransform.UnroutedIsNeverCached | client/src/utils/fetchTransform.js:29-45 | an endpoint routed to no store is always fetched and leaves the cache alone |
| FetchTransform.GetStoresThenHits | client/src/utils/fetchTransform.js:24-45 | with a working cache, a miss followed by a good response stores it, and the next call is a hit with no request |
| FetchTransform.Browser.constructor | client/src/utils/fetchTransform.js:12 | the browser holds the given database and cache and has made no requests |
| FetchTransform.Browser.GetEndpoint | client/src/utils/fetchTransform.js:12-52 | the outcome, the new cache and the requests made are those of `Get`; nothing is posted |
| FetchTransform.Browser.PostEndpoint | client/src/utils/fetchTransform.js:61-85 | exactly one POST is recorded, the outcome is the checked response, and the cache is untouched |
| Auth.Filtered | client/src/hooks/useAuth.js:33-37 | the valid updates are exactly the updates whose keys the user already has |
| Auth.Reduce | client/src/hooks/useAuth.js:31-59 | the stored token is removed and a logout is posted exactly when the filtered updates do not set a truthy `loggedIn`, and then the user resets to `emptyUser`; on the logged-out to logged-in step any readable refresh token is stored as its text; otherwise the user is merged with the valid updates |
| Auth.ReduceKeepsUserKeys | client/src/hooks/useAuth.js:31-59 | a user with the keys of `emptyUser` keeps exactly those keys |
| Auth.OmittedLoggedInResets | client/src/hooks/useAuth.js:41-47 | updates without `loggedIn` log the user out |
| Auth.StartupUpdates | client/src/hooks/useAuth.js:68-73 | the refresh answer's fields plus `loggedIn` and `username`, with `loggedIn` true unless the answer sets it |
| Auth.StartupLogsIn | client/src/hooks/useAuth.js:61-78 | a refresh answer with only the two tokens logs the user in under the decoded email and stores the new refresh token |
| Auth.Session.constructor | client/src/hooks/useAuth.js:15-28 | the user starts as `emptyUser`, with the given stored token and nothing posted |
| Auth.Session.ValidUpdates | client/src/hooks/useAuth.js:34-37 | the loop over the user's keys builds exactly `Filtered` |
| Auth.Session.Update | client/src/hooks/useAuth.js:31-59 | the new state is `Reduce` of the old user and the updates: storage, posted logout and user |
| Auth.Session.Startup | client/src/hooks/useAuth.js:61-78 | the refresh is posted exactly when logged out with a stored, non-empty token; a failed or unreadable answer invalidates the session and changes nothing else; a good one goes through `Reduce`: the user becomes its result, or stays as it was when the reducer throws, the stored token follows its storage, and the posts are the refresh followed by the reducer's logout, if any |
| Auth.Session.HideMessage | client/src/hooks/useAuth.js:81-83 | the message is hidden and nothing else changes |
| Auth.Session.Cancel | client/src/hooks/useAuth.js:86-89 | the message is hidden, the stored token removed and the user reset to `emptyUser`, with a logout posted carrying the current refresh token; a user without a readable token throws |
| HomePage.YearIs | client/src/pages/HomePage/HomePage.js:19-21 | the year test throws exactly for an undefined or null movie |
| HomePage.MoviesByYear | client/src/pages/HomePage/HomePage.js:19-21 | the filter throws exactly when some movie is undefined or null, and keeps no more than the movies |
| HomePage.MoviesByYearMembers | client/src/pages/HomePage/HomePage.js:19-21 | a movie is kept exactly when it is among the movies and has that year |
| HomePage.MoviesByYearConcat | client/src/pages/HomePage/HomePage.js:19-21 | filtering a concatenation is concatenating the filtered parts |
| HomePage.MoviesByYearOfOne | client/src/pages/HomePage/HomePage.js:19-21 | one movie is kept exactly when its year matches |
| HomePage.SearchEndpoint | client/src/pages/HomePage/HomePage.js:44 | `/movies/search?year=<year>&page=1`; read back by `SearchEndpointReadsBack`, and distinct per year by `SearchEndpointsDiffer` |
| HomePage.SearchEndpointReadsBack | client/src/pages/HomePage/HomePage.js:42-49 | a year's endpoint splits at `&` into the year query and `page=1`, and the year reads back |
| HomePage.SearchEndpointsDiffer | client/src/pages/HomePage/HomePage.js:42-49 | different years give different endpoints |
| HomePage.SearchRequests | client/src/pages/HomePage/HomePage.js:42-49 | four requests, one per year from 2023 down to 2020 |
| HomePage.SearchesFrom | client/src/pages/HomePage/HomePage.js:42-49 | the loop gives one endpoint per year from the first down to the last |
| HomePage.SearchesDescend | client/src/pages/HomePage/HomePage.js:42-49 | the requests are for distinct, strictly descending years of the range |
| HomePage.BearerToken | client/src/pages/HomePage.js:36 | reading the token throws exactly when the user or its bearer token is undefined or null |
| HomePage.LegacySearchRequests | client/src/pages/HomePage.js:33-40 | the older page throws with no request when no token can be read; otherwise four requests from 2023 down, each with the token |
| HomePage.LegacySearchesFrom | client/src/pages/HomePage.js:33-40 | the same loop over any range of years |
| HomePage.AllAnswers | client/src/pages/HomePage/HomePage.js:53 | `Promise.all` resolves exactly when every request does, with their values in order |
| HomePage.Piece | client/src/pages/HomePage/HomePage.js:54 | a response without `data` throws; `data` is cut to its first 20 movies |
| HomePage.Pieces | client/src/pages/HomePage/HomePage.js:54 | one piece per response, in order |
| HomePage.Flat | client/src/pages/HomePage/HomePage.js:54 | flattening gives an array |
| HomePage.Collected | client/src/pages/HomePage/HomePage.js:54 | the collected movies are no more than 20 per response |
| HomePage.FlatBound | client/src/pages/HomePage/HomePage.js:54 | pieces of at most n each flatten to at most n per piece |
| HomePage.FlatOutcome | client/src/pages/HomePage/HomePage.js:54 | flattening succeeds exactly when every piece does, and otherwise fails with the first failure |
| HomePage.FlatConcat | client/src/pages/HomePage/HomePage.js:54 | flattening a concatenation concatenates the flattened parts |
| HomePage.CollectedOutcome | client/src/pages/HomePage/HomePage.js:54 | collecting succeeds exactly when every response has `data` |
| HomePage.CollectedConcat | client/src/pages/HomePage/HomePage.js:54 | collecting a concatenation concatenates the collected parts |
| HomePage.CollectedOfOne | client/src/pages/HomePage/HomePage.js:54 | one response collects to its own piece |
| HomePage.Grids | client/src/pages/HomePage/HomePage.js:82-91 | the grids throw exactly when some movie is undefined or null; otherwise one grid per year from 2023 down, each holding that year's movies |
| HomePage.GridsFrom | client/src/pages/HomePage/HomePage.js:82-91 | the same loop over any range of years |
| HomePage.GridsPartition | client/src/pages/HomePage/HomePage.js:82-91 | a movie of a year in the range is in that year's grid and in no other |
| HomePage.Home.constructor | client/src/pages/HomePage/HomePage.js:9-11 | the page starts loading, with no movies and no error |
| HomePage.Home.Settle | client/src/pages/HomePage/HomePage.js:52-63 | a failed request sets the error and keeps the movies; a response without `data` does the same; otherwise the movies are the collected pieces and loading ends |
| HomePage.Home.FetchMovies | client/src/pages/HomePage/HomePage.js:42-63 | the four year requests are made; loading ends; a failed request or a response without data sets the error and keeps the movies; otherwise the movies shown are the collected first 20 of each response, at most 80 |
| HomePage.Home.LegacyFetchMovies | client/src/pages/HomePage.js:33-55 | without a readable token nothing is requested and nothing changes; otherwise the four requests carry the token and loading ends; a failed request or a response without data sets the error and keeps the movies, and otherwise the movies shown are the collected ones |
| HomePage.Home.Render | client/src/pages/HomePage/HomePage.js:73-91 | loading shows the spinner, an error the error text, and otherwise the year grids |
| MovieDataPage.TruncatedRemainder | client/src/pages/MovieDataPage/MovieDataPage.js:38 | `%` as JavaScript computes it: non-negative for a non-negative dividend and otherwise between −b and 0 |
| MovieDataPage.FormatRuntime | client/src/pages/MovieDataPage/MovieDataPage.js:33-40 | a value that is not a number shows "Runtime Unknown" |
| MovieDataPage.RuntimeReadsBack | client/src/pages/MovieDataPage/MovieDataPage.js:37-39 | a non-negative runtime shows as two words, hours and minutes, with 60 × hours + minutes = runtime and minutes below 60 |
| MovieDataPage.RuntimeNegative | client/src/pages/MovieDataPage/MovieDataPage.js:37-39 | a negative runtime that is not a whole number of hours shows a negative minute count, and hours and minutes come to an hour less than the runtime |
| MovieDataPage.WithoutCommasConcat | client/src/pages/MovieDataPage/MovieDataPage.js:21-25 | removing commas distributes over concatenation |
| MovieDataPage.WithoutCommasOfDigits | client/src/pages/MovieDataPage/MovieDataPage.js:21-25 | digits have no commas to remove |
| MovieDataPage.GroupedReadsBack | client/src/pages/MovieDataPage/MovieDataPage.js:21-25 | grouped digits without their commas are the digits |
| MovieDataPage.Grouped | client/src/pages/MovieDataPage/MovieDataPage.js:21-25 | grouping some digits gives some text; read back by `GroupedReadsBack` |
| MovieDataPage.FormatCurrency | client/src/pages/MovieDataPage/MovieDataPage.js:17-26 | a value that is not a number shows "N/A" |
| MovieDataPage.FormatCurrencyReadsBack | client/src/pages/MovieDataPage/MovieDataPage.js:21-25 | an amount shows as an optional minus, a dollar sign and grouped digits that read back as its magnitude |
| MovieDataPage.Capitalized | client/src/pages/MovieDataPage/MovieDataPage.js:134-137 | a string keeps its length, with its first letter upper-cased and the rest unchanged; anything else throws |
| MovieDataPage.CharactersText | client/src/pages/MovieDataPage/MovieDataPage.js:119-124 | an array shows as its items joined by ", "; anything else throws |
| MovieDataPage.CharactersOfServerText | client/src/pages/MovieDataPage/MovieDataPage.js:119-124 | the server's comma-split characters show as the original text with ", " for each comma |
| MovieDataPage.JoinSplitSpaced | client/src/pages/MovieDataPage/MovieDataPage.js:119-124 | splitting on "," and joining with ", " spaces every comma |
| MovieDataPage.Countries | client/src/pages/MovieDataPage/MovieDataPage.js:66-85 | countries render exactly when `country` is a string |
| MovieDataPage.ReduceCountries | client/src/pages/MovieDataPage/MovieDataPage.js:78-81 | the `reduce` that puts separators between the flags; stated by `ReduceInterleaves` |
| MovieDataPage.CountriesInterleaved | client/src/pages/MovieDataPage/MovieDataPage.js:66-85 | n countries show as n flags, each named as written and coded by its trimmed name, with n − 1 separators between them, in the order of the text |
| MovieDataPage.ReduceInterleaves | client/src/pages/MovieDataPage/MovieDataPage.js:78-82 | the reduce puts a separator between each pair of neighbouring components |
| MovieDataPage.MissingMovieMessageIsNotNumeric | client/src/pages/MovieDataPage/MovieDataPage.js:154 | the text compared with `==` converts to NaN, so loose equality is string equality here |
| MovieDataPage.NavigatesToMissing | client/src/pages/MovieDataPage/MovieDataPage.js:152-156 | the catch throws exactly for an undefined or null error, and navigates to 404 exactly when the message is the "No record" text |
| MovieDataPage.MessageEquals | client/src/pages/MovieDataPage/MovieDataPage.js:154 | loose comparison of a message with a non-numeric text: undefined or null throws, a string message compares as text |
| MovieDataPage.MissingMovieNavigates | client/src/pages/MovieDataPage/MovieDataPage.js:152-156 | the server's missing-movie error, and the error body carrying its message, both navigate to 404 |
| MoviesPage.Get | client/src/pages/MoviesPage/MoviesPage.js:26 | the lookup finds nothing exactly when no entry has the key |
| MoviesPage.GetUnique | client/src/pages/MoviesPage/MoviesPage.js:26 | with unique keys, the lookup finds each entry's own value |
| MoviesPage.Last | client/src/pages/MoviesPage/MoviesPage.js:26 | `Object.fromEntries` keeps the last value of a key and has it exactly when some entry does |
| MoviesPage.LastUnique | client/src/pages/MoviesPage/MoviesPage.js:26 | with unique keys the first and the last value agree |
| MoviesPage.GetPrefix | client/src/pages/MoviesPage/MoviesPage.js:26 | a key absent from the tail is found in the prefix or not at all |
| MoviesPage.Assign | client/src/pages/MoviesPage/MoviesPage.js:370-376 | the assigned key reads back the value and every other key is unchanged; a known key keeps its place and a new key goes last (integer-like keys are not ordered first here) |
| MoviesPage.AssignUnique | client/src/pages/MoviesPage/MoviesPage.js:370-376 | assignment keeps keys unique |
| MoviesPage.AssignAll | client/src/pages/MoviesPage/MoviesPage.js:370-376 | each key reads the last update's value if it has one and otherwise the old value; unique keys stay unique |
| MoviesPage.AsObject | client/src/pages/MoviesPage/MoviesPage.js:26 | one string property per parameter, in order |
| MoviesPage.LastOfAsObject | client/src/pages/MoviesPage/MoviesPage.js:26 | the object's last value of a key is the parameters' last value as a string |
| MoviesPage.FromObject | client/src/pages/MoviesPage/MoviesPage.js:378 | `new URLSearchParams(obj)` gives one entry per property, its value as text |
| MoviesPage.GetFromObject | client/src/pages/MoviesPage/MoviesPage.js:378 | looking a key up in the new parameters gives the property's text |
| MoviesPage.SetEntry | client/src/pages/MoviesPage/MoviesPage.js:336-344 | `set` makes the key read back the value and leaves every other key alone |
| MoviesPage.Without | client/src/pages/MoviesPage/MoviesPage.js:336-344 | removing a key's entries leaves no entry under it and every other key alone |
| MoviesPage.Utf8 | client/src/pages/MoviesPage/MoviesPage.js:29-32 | a character is one to four bytes |
| MoviesPage.HexDigit | client/src/pages/MoviesPage/MoviesPage.js:29-32 | a hex digit is 0-9 or A-F |
| MoviesPage.Percent | client/src/pages/MoviesPage/MoviesPage.js:29-32 | each byte becomes three characters, `%` and two upper-case hex digits |
| MoviesPage.EncodeChar | client/src/pages/MoviesPage/MoviesPage.js:29-32 | a character encodes to unreserved characters, `+` or `%` escapes |
| MoviesPage.Encode | client/src/pages/MoviesPage/MoviesPage.js:29-32 | encoded text holds only unreserved characters, `+` and `%` |
| MoviesPage.EncodeAvoids | client/src/pages/MoviesPage/MoviesPage.js:29-32 | encoded text never contains `&` or `=` |
| MoviesPage.EncodeUnreserved | client/src/pages/MoviesPage/MoviesPage.js:29-32 | unreserved text encodes as itself |
| MoviesPage.Serialize | client/src/pages/MoviesPage/MoviesPage.js:29-32 | serialised parameters are empty exactly when there are none |
| MoviesPage.SerializeTwo | client/src/pages/MoviesPage/MoviesPage.js:29-32 | two serialised pairs split back at `&` into the two pairs |
| MoviesPage.EndpointSearchParams | client/src/pages/MoviesPage/MoviesPage.js:25-34 | the search params the card and table views send; stated by `EndpointSearchParamsPairs` |
| MoviesPage.EndpointSearchParamsPairs | client/src/pages/MoviesPage/MoviesPage.js:25-34 | the endpoint query is `?` and exactly two pairs, `title` then `year`, carrying the last values of those keys (the text `undefined` when absent) |
| MoviesPage.AssignedText | client/src/pages/MoviesPage/MoviesPage.js:26-31 | the text serialised for a key is its last value in the parameters, or "undefined" when absent |
| MoviesPage.GetOfParams | client/src/pages/MoviesPage/MoviesPage.js:26 | the object built from the parameters holds each key's last value, as a string |
| MoviesPage.DigitRun | client/src/pages/MoviesPage/MoviesPage.js:364 | the longest prefix of decimal digits |
| MoviesPage.HexRun | client/src/pages/MoviesPage/MoviesPage.js:364 | the longest prefix of hexadecimal digits |
| MoviesPage.ParseInt | client/src/pages/MoviesPage/MoviesPage.js:364 | `parseInt` gives a number or NaN |
| MoviesPage.MagnitudeOfDecimal | client/src/pages/MoviesPage/MoviesPage.js:364 | a run of decimal digits reads as its value |
| MoviesPage.ParseIntOfDecimal | client/src/pages/MoviesPage/MoviesPage.js:364 | the decimal text of a number parses back to it |
| MoviesPage.ParseIntOfDigits | client/src/pages/MoviesPage/MoviesPage.js:364 | a run of digits parses as its value |
| MoviesPage.DigitRunOfDigits | client/src/pages/MoviesPage/MoviesPage.js:364 | the digit run of digits is all of them |
| MoviesPage.DigitRunOfPrefix | client/src/pages/MoviesPage/MoviesPage.js:364 | digits followed by a non-digit run to the non-digit |
| MoviesPage.Clamp | client/src/pages/MoviesPage/MoviesPage.js:363-367 | NaN stays NaN; a year in range is unchanged; below 1990 becomes 1990; above the current year becomes the current year |
| MoviesPage.Rewritten | client/src/pages/MoviesPage/MoviesPage.js:363-367 | a truthy `year` of the updates becomes its clamped `parseInt`; used as the contract of `UpdatedSearchParams` |
| MoviesPage.UpdatedSearchParams | client/src/pages/MoviesPage/MoviesPage.js:350-383 | updates that all match keep the old parameters; otherwise the year is rewritten and clamped, and the result is the merge of the old parameters with the rewritten updates |
| MoviesPage.Merged | client/src/pages/MoviesPage/MoviesPage.js:370-379 | the merge of the old parameters and the updates; stated by `MergeAt` and `MergeKeeps` |
| MoviesPage.MergeAt | client/src/pages/MoviesPage/MoviesPage.js:370-379 | a merged key reads the update's text if it has one and otherwise its last old value |
| MoviesPage.MergeKeeps | client/src/pages/MoviesPage/MoviesPage.js:370-379 | the merge has unique keys, the updates' texts and otherwise the last old values |
| MoviesPage.ApplyYearFilter | client/src/pages/MoviesPage/MoviesPage.js:387-395 | the input shows nothing exactly when it does not parse; a shown year is in range; a year in range shows as itself; the parameters' year becomes the shown text and other keys keep their last values; an unchanged year changes nothing |
| MoviesPage.ClampedReparses | client/src/pages/MoviesPage/MoviesPage.js:389-391 | a year in range shows as its decimal text, which parses and clamps back to it |
| MoviesPage.YearUpdateKeys | client/src/pages/MoviesPage/MoviesPage.js:392 | the `{year}` update matches exactly when the year already holds that text |
| MoviesPage.YearUpdate | client/src/pages/MoviesPage/MoviesPage.js:363-367 | a shown year that is empty or in range survives the rewrite |
| MoviesPage.SearchParams.constructor | client/src/pages/MoviesPage/MoviesPage.js:332 | the router's parameters are the given entries |
| MoviesPage.SearchParams.Set | client/src/pages/MoviesPage/MoviesPage.js:337 | `set` as `SetEntry` |
| MoviesPage.SearchParams.ApplyDefaults | client/src/pages/MoviesPage/MoviesPage.js:336-344 | an empty or missing year or title becomes ""; a missing display becomes "grid"; other keys are unchanged |
| MoviesPage.SearchParams.ApplyLegacyDefaults | client/src/pages/MoviesPage.js:288-292 | only parameters that serialise to nothing take the defaults title "", year "", display "table" |
| MoviesPage.SearchParams.Update | client/src/pages/MoviesPage/MoviesPage.js:350-383 | the router takes the updater's result |
| MoviesPage.PageNumber | client/src/pages/MoviesPage/MoviesPage.js:148-149 | the page is defined exactly when `perPage` is positive, and it is the page that holds the start row |
| MoviesPage.ServerPageHoldsRow | client/src/pages/MoviesPage/MoviesPage.js:148-149 | with the server's 100 per page, the requested page's offset is the start row's page start, so the row is on it |
| MoviesPage.Spread | client/src/pages/MoviesPage/MoviesPage.js:207 | spreading an array gives its items, and spreading succeeds only for arrays and strings |
| MoviesPage.AppendPage | client/src/pages/MoviesPage/MoviesPage.js:207-209 | a `data` that spreads is appended after the old movies, in order, before `pagination` is read; a `data` that does not spread throws and appends nothing; an unreadable `pagination` then throws with the page already appended; otherwise `hasMore` is `nextPage !== null` |
| MoviesPage.ServerPagesLeaveMore | client/src/pages/MoviesPage/MoviesPage.js:208 | the server's pagination has no `nextPage`, so every page it answers leaves `hasMore` true |
| MoviesPage.Details.constructor | client/src/pages/MoviesPage/MoviesPage.js:192-198 | the card view starts with no movies, no more to load, a total of 0 and not loading |
| MoviesPage.Details.LoadMovies | client/src/pages/MoviesPage/MoviesPage.js:201-213 | a falsy response leaves the view loading and unchanged; otherwise the movies become those of `AppendPage`; when it does not throw, `hasMore` and the total are set and loading ends; when it throws, loading stays on and `hasMore` and the total keep their values |
| MoviesPage.LegacyDetails.constructor | client/src/pages/MoviesPage.js:139-144 | the older card view starts with no movies, no more to load and not loading |
| MoviesPage.LegacyDetails.LoadMovies | client/src/pages/MoviesPage.js:157-166 | the same, with no total |
| MoviesPage.Message | client/src/pages/MoviesPage/MoviesPage.js:257 | the "Showing … of … results." text; read back word by word by `MessageWords` |
| MoviesPage.MessageWords | client/src/pages/MoviesPage/MoviesPage.js:257 | the message reads, word by word, as "Showing", the count, "of", the total and "results." |
| MoviesPage.SplitFive | client/src/pages/MoviesPage/MoviesPage.js:257 | five separator-free words joined by the separator split back into them |

## Left out

- Network I/O, timers, `AbortController` signals and the interleaving of
  promises are not modelled; a delay is recorded as a number on each
  request, and an asynchronous chain is modelled by its settlement.
- Number conversion handles integers and NaN only. Fractional, exponent,
  hexadecimal and `Infinity` texts become NaN in `toNumber`, and floating
  point is not modelled. The same conversion runs in `Types.Segment` under
  `toDate`, so `Types.Check` and `Types.ToDate` reject dates such as
  "1e03-01-01" or "0x14-01-01", which server/utils/types.js:22 accepts
  (`+"1e03"` is 1000; `+"0x14"` is 20, which becomes 1920).
- `Js.ToNumber` takes arrays, objects and errors to NaN. JavaScript first
  turns them into a primitive, so `+[]` is 0 and `+["2"]` is 2; the modelled
  code never converts an array.
- knex and SQL are replaced by in-memory rows. `LIKE` matching is
  case-sensitive substring matching without wildcards inside the needle,
  and the count query returns a plain number.
- `jsonwebtoken` is an oracle: signing, the timespan parser and decoding
  are parameters. Signatures, expiry checks and timespan syntax are not
  modelled.
- `bcrypt` is not modelled. Passwords are compared as stored, as the
  routes do.
- A synchronous throw inside a stage is the `Escapes` reply; Express's
  router catches it and hands it to the application's error handler, which
  `Pipeline.Handled` models by its status and message. The `error` view it
  renders is not part of this model. An uncaught rejection is `Unanswered`.
- The status check is Node's `writeHead` check (the code converted to a
  32-bit integer must lie in 100..999), stated on integers; fractional codes
  are not modelled.
- The person details route (`server/routes/people.js`) is modelled as
  written, but `server/app.js` does not mount it, so the running server
  never reaches it.
- `client/src/utils/fetcher.js`, `client/src/contexts/CacheContext` and the
  `getCode` of `countries.js` are not part of this model. `postEndpoint` of
  `useAuth`, the token decoder and `getCode` are parameters.
- The `fetchTransform` function that `useDetailedMovies.js` imports is not
  exported by `client/src/utils/fetchTransform.js`, so the hook receives it
  as a parameter.
- `client/src/utils/indexed.js` is modelled as two maps, one per object
  store. The IndexedDB transaction API and its versioning are not modelled.
- `Intl.NumberFormat` is modelled only for whole-dollar amounts with comma
  grouping, as the page configures it. Other locales and roundings are not
  modelled.
- Upper-casing is ASCII-only.
- MoviesPage.Assign: a new key always goes last. JavaScript orders
  integer-like keys (such as "2") first, in ascending order; the page's
  parameters are `title`, `year`, `display` and `page`, none of them
  integer-like.
- Pipeline.QueryArgs: spreading a string adds its indices as keys in
  JavaScript; the model adds nothing for it, because every parser of the
  routes returns an object.
- When several requests of `Promise.all` fail, the model does not say which
  rejection wins.
- DetailedMovies.Hook.Transformer: the batches' `forEach` steps are applied
  in the order the batches were handed over. In the browser each batch
  finishes when its own requests do, so a movie that appears in two batches
  may end with the other batch's data.
- MoviesPage.AppendPage: React runs the `setMovies` updater when it renders,
  so a `data` that cannot be spread throws at render time; the model raises
  that error where the page is appended.
- React rendering, the scheduling of state updates, the debounce of the
  year input and the components' markup are not modelled. The UI
  components and the login, register and person pages are not modelled.
- Users.Refresh: its own contract states only that the table is unchanged.
  The tokens it issues are stated by `Users.RefreshIgnoresVerification`.
- Movies.SearchFilters: its own contract states only the clause count. The
  filters' contents are stated by `Movies.SearchMovies`.
- Movies.DetailRows: its own contract states only the row bound. The
  selection by id is stated by `Movies.WhereEquals`.
- FetchTransform.Get: its own contract states only that one call makes at
  most one request. Its behaviour is stated by the `Get…` lemmas beside it.

## Findings

| source | as written | input that shows it | evidently intended | confidence | as-written member | corrected member |
|---|---|---|---|---|---|---|
| server/utils/types.js:47-48 | `new Date(year, month - 1, day)` treats years 0 to 99 as 1900 to 1999, so an accepted date converts to another year, and a leap day can become 1 March | "0000-02-29" passes every check (year 0 is a leap year) and converts to 1 March 1900 | the accepted year, month and day, for every year the format allows | medium, not executed | Types.ToDateLeapDayShift | Types.ToDateFullYearRoundTrip |
