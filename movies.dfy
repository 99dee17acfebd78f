/** The movie routes (server/routes/movies.js): the paged title/year search
    and the detail record of one movie. Database tables are in-memory
    sequences of rows, each row a map from column name to value. */
module Movies {
  import opened Js
  import opened Strings
  import opened Pipeline

  const PerPage := 100

  /** A table row: column name to value. */
  type Row = map<string, Value>

  /** An object used as a column-to-alias map, its keys in declaration order
      (the order `Object.keys` gives). */
  type SelectMap = seq<(string, string)>

  const BasicsMap: SelectMap := [
    ("primaryTitle", "title"), ("year", "year"), ("tconst", "imdbID"), ("imdbRating", "imdbRating"),
    ("rottentomatoesRating", "rottenTomatoesRating"), ("metacriticRating", "metacriticRating"),
    ("rated", "classification")]

  const MovieDetailsMap: SelectMap := [
    ("primaryTitle", "title"), ("year", "year"), ("runtimeMinutes", "runtime"), ("genres", "genres"),
    ("country", "country"), ("boxoffice", "boxoffice"), ("poster", "poster"), ("plot", "plot"),
    ("imdbRating", "imdbRating"), ("rottentomatoesRating", "rottenTomatoesRating"),
    ("metacriticRating", "metacriticRating"), ("nconst", "id"), ("category", "category"),
    ("name", "name"), ("characters", "characters")]

  /** `selectQueryFromMap(map)`: one "column as alias" text per key, in key order. */
  function SelectQueryFromMap(m: SelectMap): (fields: seq<string>)
    ensures |fields| == |m|
    ensures forall i :: 0 <= i < |m| ==> fields[i] == m[i].0 + " as " + m[i].1
  {
    seq(|m|, i requires 0 <= i < |m| => m[i].0 + " as " + m[i].1)
  }

  /** Each select text reads back as its column and alias when neither holds
      a space: the list determines the map. */
  lemma SelectFieldsReadBack(m: SelectMap, i: nat)
    requires i < |m| && ' ' !in m[i].0 && ' ' !in m[i].1
    ensures Split(SelectQueryFromMap(m)[i], ' ') == [m[i].0, "as", m[i].1]
  {
    assert m[i].0 + " as " + m[i].1 == m[i].0 + [' '] + "as" + [' '] + m[i].1;
    SplitThree(m[i].0, "as", m[i].1, ' ');
  }

  /** What a select with alias list `m` makes of a row. */
  function Project(m: SelectMap, row: Row): (r: Row)
    ensures forall i :: 0 <= i < |m| ==> m[i].1 in r
    ensures forall i :: 0 <= i < |m| && LastAlias(m, i) ==> r[m[i].1] == Field(Obj(row), m[i].0)
    decreases |m|
  {
    if |m| == 0 then map[]
    else
      var init := m[..|m| - 1];
      var last := m[|m| - 1];
      var prev := Project(init, row);
      assert forall i :: 0 <= i < |init| ==> init[i] == m[i];
      assert forall i :: 0 <= i < |init| && LastAlias(m, i) ==> LastAlias(init, i);
      prev[last.1 := Field(Obj(row), last.0)]
  }

  /** The projected row has no key besides the aliases. */
  lemma {:induction false} ProjectKeys(m: SelectMap, row: Row)
    ensures Project(m, row).Keys == Aliases(m)
    decreases |m|
  {
    if |m| > 0 {
      ProjectKeys(m[..|m| - 1], row);
    }
  }

  /** The aliases of a select list. */
  function Aliases(m: SelectMap): (names: set<string>)
    ensures forall i :: 0 <= i < |m| ==> m[i].1 in names
    decreases |m|
  {
    if |m| == 0 then {} else Aliases(m[..|m| - 1]) + {m[|m| - 1].1}
  }

  /** No later entry of `m` reuses the alias of entry `i`, so the select
      keeps that entry's column under it. */
  predicate LastAlias(m: SelectMap, i: nat)
    requires i < |m|
  {
    forall j :: i < j < |m| ==> m[j].1 != m[i].1
  }

  /** The search's aliases are distinct, so each result row holds each
      aliased column of its basics row: `title` is `primaryTitle`, `imdbID`
      is `tconst`, and so on. */
  lemma BasicsProjection(row: Row)
    ensures var r := Project(BasicsMap, row);
      forall i :: 0 <= i < |BasicsMap| ==> r[BasicsMap[i].1] == Field(Obj(row), BasicsMap[i].0)
  {
    forall i | 0 <= i < |BasicsMap| ensures LastAlias(BasicsMap, i) {
    }
  }

  /** A `where(column, "like", "%needle%")` clause. */
  datatype Like = Like(column: string, needle: string)

  /** The SQL pattern text of a clause. */
  function Pattern(l: Like): string
  {
    "%" + l.needle + "%"
  }

  /** The row's column contains the needle (case and wildcards inside the
      needle are not modelled). */
  predicate Matches(row: Row, l: Like)
  {
    Contains(ToStr(Field(Obj(row), l.column)), l.needle)
  }

  predicate MatchesAll(row: Row, filters: seq<Like>)
  {
    forall i :: 0 <= i < |filters| ==> Matches(row, filters[i])
  }

  /** The rows passing every clause, in table order. */
  function Filter(rows: seq<Row>, filters: seq<Like>): (r: seq<Row>)
    ensures |r| <= |rows|
    ensures forall x :: x in r <==> x in rows && MatchesAll(x, filters)
    decreases |rows|
  {
    if |rows| == 0 then []
    else
      var rest := Filter(rows[1..], filters);
      assert forall x :: x in rows <==> x == rows[0] || x in rows[1..];
      if MatchesAll(rows[0], filters) then [rows[0]] + rest else rest
  }

  /** `knex("basics").count("tconst")` with its clauses. */
  datatype CountQuery = CountQuery(table: string, counted: string, filters: seq<Like>)

  /** `knex("basics").select(fields).limit(limit).offset(offset)` with its clauses. */
  datatype DataQuery = DataQuery(table: string, fields: seq<string>, limit: nat, offset: nat, filters: seq<Like>)

  datatype Search = Search(count: CountQuery, data: DataQuery, offset: Value)
  datatype SearchResult = Built(search: Search) | SearchThrows(thrown: Value)

  const BadYear := PlainError("Invalid year format. Format must be yyyy.")
  /** What knex's `offset` throws for a negative number. */
  const NegativeOffset := PlainError("A non-negative integer must be provided to offset.")

  /** `^\d{4}$`. */
  predicate FourDigits(s: string)
  {
    |s| == 4 && IsDigits(s)
  }

  /** A year `searchMovies` lets through: absent, or four digits. */
  predicate YearAccepted(year: Value)
  {
    !Truthy(year) || (year.Str? && FourDigits(year.s))
  }

  /** An offset knex's `offset` refuses. */
  predicate RefusedOffset(offset: Value)
  {
    offset.Num? && offset.n < 0
  }

  /** The clauses both queries of a search carry. */
  function SearchFilters(title: Value, year: Value): (filters: seq<Like>)
    ensures |filters| <= 2
  {
    (if Truthy(title) then [Like("primaryTitle", ToStr(title))] else [])
    + (if Truthy(year) then [Like("year", ToStr(year))] else [])
  }

  /** `(page - 1) * PER_PAGE`. */
  function Offset(page: Value): (offset: Value)
    ensures offset.Num? <==> Js.ToNumber(page).Num?
    ensures offset.Num? ==> offset.n == (Js.ToNumber(page).n - 1) * PerPage
  {
    Times(Minus(Js.ToNumber(page), Num(1)), Num(PerPage))
  }

  /** The row offset knex applies: a negative number throws, NaN is ignored. */
  function OffsetRows(offset: Value): (n: nat)
    requires offset.Num? ==> offset.n >= 0
    ensures offset.Num? ==> n == offset.n
  {
    if offset.Num? then offset.n else 0
  }

  /** `searchMovies(knex, title, year, page = 1)`: the year check, then the
      two query builders, each extended clause by clause. */
  method SearchMovies(title: Value, year: Value, pageArg: Value) returns (r: SearchResult)
    ensures Truthy(year) && !year.Str? ==> r.SearchThrows? && r.thrown.Error? && r.thrown.name == "TypeError"
    ensures Truthy(year) && year.Str? && !FourDigits(year.s) ==> r == SearchThrows(BadYear)
    ensures r.Built? <==> ((!Truthy(year) || (year.Str? && FourDigits(year.s)))
      && !(Offset(if pageArg.Undefined? then Num(1) else pageArg).Num?
           && Offset(if pageArg.Undefined? then Num(1) else pageArg).n < 0))
    ensures r.Built? ==>
      var s := r.search;
      && s.offset == Offset(if pageArg.Undefined? then Num(1) else pageArg)
      && s.count == CountQuery("basics", "tconst", SearchFilters(title, year))
      && s.data == DataQuery("basics", SelectQueryFromMap(BasicsMap), PerPage, OffsetRows(s.offset), SearchFilters(title, year))
    ensures r.SearchThrows? && (!Truthy(year) || (year.Str? && FourDigits(year.s))) ==> r.thrown == NegativeOffset
  {
    var page := if pageArg.Undefined? then Num(1) else pageArg;
    if Truthy(year) {
      if !year.Str? {
        return SearchThrows(Error("TypeError", "year.match is not a function"));
      }
      if !FourDigits(year.s) {
        return SearchThrows(BadYear);
      }
    }
    var offset := Offset(page);
    var countQuery := CountQuery("basics", "tconst", []);
    if Truthy(title) {
      countQuery := countQuery.(filters := countQuery.filters + [Like("primaryTitle", ToStr(title))]);
    }
    if Truthy(year) {
      countQuery := countQuery.(filters := countQuery.filters + [Like("year", ToStr(year))]);
    }
    assert countQuery.filters == SearchFilters(title, year);
    var selectFields := SelectQueryFromMap(BasicsMap);
    if offset.Num? && offset.n < 0 {
      return SearchThrows(NegativeOffset);
    }
    var dataQuery := DataQuery("basics", selectFields, PerPage, OffsetRows(offset), []);
    if Truthy(title) {
      dataQuery := dataQuery.(filters := dataQuery.filters + [Like("primaryTitle", ToStr(title))]);
    }
    if Truthy(year) {
      dataQuery := dataQuery.(filters := dataQuery.filters + [Like("year", ToStr(year))]);
    }
    assert dataQuery.filters == SearchFilters(title, year);
    r := Built(Search(countQuery, dataQuery, offset));
  }

  /** The count query's result. */
  function RunCount(q: CountQuery, table: seq<Row>): (n: nat)
  {
    |Filter(table, q.filters)|
  }

  /** The data query's rows: the matching rows from `offset` on, at most
      `limit` of them, each projected through the alias list. */
  function RunData(q: DataQuery, table: seq<Row>): (rows: seq<Row>)
    ensures var matching := Filter(table, q.filters);
      && |rows| == (if q.offset >= |matching| then 0 else Min(q.limit, |matching| - q.offset))
      && forall i :: 0 <= i < |rows| ==>
           q.offset + i < |matching| && rows[i] == Project(BasicsMap, matching[q.offset + i])
  {
    var matching := Filter(table, q.filters);
    var start := if q.offset < |matching| then q.offset else |matching|;
    var page := matching[start..];
    var kept := if |page| <= q.limit then page else page[..q.limit];
    seq(|kept|, i requires 0 <= i < |kept| => Project(BasicsMap, kept[i]))
  }

  function Min(a: int, b: int): int { if a < b then a else b }

  /** `Math.ceil(count / PER_PAGE)`. */
  function LastPage(count: nat): (p: nat)
    ensures p * PerPage >= count && (p > 0 ==> (p - 1) * PerPage < count)
  {
    (count + PerPage - 1) / PerPage
  }

  lemma LastPageOfMock()
    ensures LastPage(12184) == 122
  {
  }

  /** The `pagination` object of a search answer. */
  function Pagination(count: nat, page: Value, offset: Value, rows: nat): (p: Value)
    requires offset.Num? || offset.NaN?
    ensures Field(p, "total") == Num(count) && Field(p, "lastPage") == Num(LastPage(count))
    ensures Field(p, "perPage") == Num(PerPage) && Field(p, "currentPage") == page
    ensures Field(p, "from") == offset && Field(p, "to") == Plus(offset, Num(rows))
  {
    Obj(map["total" := Num(count), "lastPage" := Num(LastPage(count)), "perPage" := Num(PerPage),
            "currentPage" := page, "from" := offset, "to" := Plus(offset, Num(rows))])
  }

  /** The body of a search answer: `{data, pagination}`. */
  function SearchBody(movies: seq<Row>, total: nat, page: Value, offset: Value): (body: Value)
    requires offset.Num? || offset.NaN?
    ensures Field(body, "data").Arr? && |Field(body, "data").items| == |movies|
    ensures forall i :: 0 <= i < |movies| ==> Field(body, "data").items[i] == Obj(movies[i])
    ensures Field(body, "pagination") == Pagination(total, page, offset, |movies|)
  {
    var rowValues := seq(|movies|, i requires 0 <= i < |movies| => Obj(movies[i]));
    Obj(map["data" := Arr(rowValues), "pagination" := Pagination(total, page, offset, |movies|)])
  }

  /** The page a query string asks for: `page`, or 1 when it is falsy. */
  function PageOf(query: Value): Value
  {
    if Truthy(Field(query, "page")) then Field(query, "page") else Num(1)
  }

  /** The 200 answer of a search whose queries both run: the page of rows
      matching `filters` from `offset` on, and its pagination. */
  function SearchAnswer(filters: seq<Like>, page: Value, offset: Value, basics: seq<Row>): Reply
    requires offset.Num? || offset.NaN?
    requires offset.Num? ==> offset.n >= 0
  {
    var data := DataQuery("basics", SelectQueryFromMap(BasicsMap), PerPage, OffsetRows(offset), filters);
    Respond(Num(200), SearchBody(RunData(data, basics), RunCount(CountQuery("basics", "tconst", filters), basics), page, offset))
  }

  /** The answer's page: at most `PerPage` rows, as many as the matching
      rows from the offset on allow, and the pagination counts every
      matching row. */
  lemma SearchAnswerPage(filters: seq<Like>, page: Value, offset: Value, basics: seq<Row>)
    requires offset.Num? || offset.NaN?
    requires offset.Num? ==> offset.n >= 0
    ensures var reply := SearchAnswer(filters, page, offset, basics);
      var matching := Filter(basics, filters);
      && reply.Respond? && reply.status == Num(200)
      && PageFrom(Field(reply.body, "data"), matching, OffsetRows(offset))
      && Field(reply.body, "pagination") == Pagination(|matching|, page, offset, |Field(reply.body, "data").items|)
  {
    var data := DataQuery("basics", SelectQueryFromMap(BasicsMap), PerPage, OffsetRows(offset), filters);
    var rows := RunData(data, basics);
    var matching := Filter(basics, filters);
    assert RunCount(CountQuery("basics", "tconst", filters), basics) == |matching|;
    BodyPage(rows, matching, page, offset, OffsetRows(offset));
    assert SearchAnswer(filters, page, offset, basics) == Respond(Num(200), SearchBody(rows, |matching|, page, offset));
  }

  /** `data` is the page of `matching` from row `start` on: an array of at
      most `PerPage` rows, as many as there are from `start` on, each the
      projection of its matching row. */
  predicate PageFrom(data: Value, matching: seq<Row>, start: nat)
  {
    && data.Arr?
    && |data.items| <= PerPage
    && |data.items| == (if start >= |matching| then 0 else Min(PerPage, |matching| - start))
    && forall i :: 0 <= i < |data.items| ==>
         start + i < |matching| && data.items[i] == Obj(Project(BasicsMap, matching[start + i]))
  }

  /** `SearchAnswerPage` over the page's parts alone: rows that are the
      page of `matching` make a body whose `data` is that page. */
  lemma BodyPage(movies: seq<Row>, matching: seq<Row>, page: Value, offset: Value, start: nat)
    requires offset.Num? || offset.NaN?
    requires |movies| == if start >= |matching| then 0 else Min(PerPage, |matching| - start)
    requires forall i :: 0 <= i < |movies| ==>
      start + i < |matching| && movies[i] == Project(BasicsMap, matching[start + i])
    ensures var body := SearchBody(movies, |matching|, page, offset);
      && PageFrom(Field(body, "data"), matching, start)
      && Field(body, "pagination") == Pagination(|matching|, page, offset, |Field(body, "data").items|)
  {
  }

  /** The `/search` handler on query string `query`. The two queries run on
      `basics`; `failure` is a rejection of either by the database. */
  method SearchRoute(query: Value, basics: seq<Row>, failure: Option<Value>) returns (reply: Reply)
    ensures var year := Field(query, "year");
      Truthy(year) && !year.Str? ==> reply.Escapes? && reply.thrown.Error? && reply.thrown.name == "TypeError"
    ensures var year := Field(query, "year");
      Truthy(year) && year.Str? && !FourDigits(year.s) ==> reply == Escapes(BadYear)
    ensures YearAccepted(Field(query, "year")) && RefusedOffset(Offset(PageOf(query))) ==>
      reply == Escapes(NegativeOffset)
    ensures reply.Escapes? <==> !YearAccepted(Field(query, "year")) || RefusedOffset(Offset(PageOf(query)))
    ensures !reply.Escapes? && failure.Some? ==> reply == Respond(Num(400), ErrorBody(Field(failure.value, "message")))
    ensures !reply.Escapes? && failure.None? ==>
      var page := PageOf(query);
      reply == SearchAnswer(SearchFilters(Field(query, "title"), Field(query, "year")), page, Offset(page), basics)
    ensures !reply.Unanswered?
  {
    var title := Field(query, "title");
    var year := Field(query, "year");
    var page := PageOf(query);
    var built := SearchMovies(title, year, page);
    if built.SearchThrows? {
      reply := Escapes(built.thrown);
    } else if failure.Some? {
      reply := Respond(Num(400), ErrorBody(Field(failure.value, "message")));
    } else {
      var s := built.search;
      var movies := RunData(s.data, basics);
      var total := RunCount(s.count, basics);
      reply := Respond(Num(200), SearchBody(movies, total, page, s.offset));
    }
  }

  /** A rating entry `{source, value}`. */
  datatype Rating = Rating(source: string, value: Value)

  /** The three rating sources, in their fixed order. */
  function RatingSources(first: Value): seq<Rating>
  {
    [Rating("Internet Movie Database", Field(first, "imdbRating")),
     Rating("Rotten Tomatoes", Field(first, "rottenTomatoesRating")),
     Rating("Metacritic", Field(first, "metacriticRating"))]
  }

  /** `.filter((rating) => rating.value !== null)`. */
  function WithoutNulls(ratings: seq<Rating>): (r: seq<Rating>)
    ensures |r| <= |ratings|
    ensures forall x :: x in r <==> x in ratings && !x.value.Null?
    ensures IsSubsequence(r, ratings)
    decreases |ratings|
  {
    if |ratings| == 0 then []
    else
      var rest := WithoutNulls(ratings[1..]);
      assert forall x :: x in ratings <==> x == ratings[0] || x in ratings[1..];
      if ratings[0].value.Null? then rest else [ratings[0]] + rest
  }

  /** `a` is `b` with some elements left out, the rest in their order. */
  predicate IsSubsequence<T(==)>(a: seq<T>, b: seq<T>)
    decreases |b|
  {
    if |a| == 0 then true
    else if |b| == 0 then false
    else if a[0] == b[0] then IsSubsequence(a[1..], b[1..])
    else IsSubsequence(a, b[1..])
  }

  /** `v.split(",")`: a string splits; anything else throws a TypeError. */
  function SplitValue(v: Value): (r: Outcome)
    ensures r.Returns? <==> v.Str?
    ensures v.Str? ==> r.value == Arr(Texts(Split(v.s, ',')))
    ensures r.Throws? ==> r.thrown.Error? && r.thrown.name == "TypeError"
  {
    match v
    case Str(s) => Returns(Arr(Texts(Split(s, ','))))
    case Undefined => Throws(PropertyOfNothing)
    case Null => Throws(PropertyOfNothing)
    case _ => Throws(Error("TypeError", "split is not a function"))
  }

  function Texts(parts: seq<string>): (r: seq<Value>)
    ensures |r| == |parts| && forall i :: 0 <= i < |parts| ==> r[i] == Str(parts[i])
  {
    seq(|parts|, i requires 0 <= i < |parts| => Str(parts[i]))
  }

  /** One principal `{id, category, name, characters}` of a joined row. */
  function Principal(row: Value): (r: Outcome)
    ensures r.Returns? <==> Field(row, "characters").Str?
    ensures r.Returns? ==> (Field(r.value, "id") == Field(row, "id") && Field(r.value, "name") == Field(row, "name")
      && Field(r.value, "category") == Field(row, "category")
      && Field(r.value, "characters") == SplitValue(Field(row, "characters")).value)
  {
    match SplitValue(Field(row, "characters"))
    case Throws(e) => Throws(e)
    case Returns(characters) =>
      Returns(Obj(map["id" := Field(row, "id"), "category" := Field(row, "category"),
                      "name" := Field(row, "name"), "characters" := characters]))
  }

  /** `raw.map(...)`, stopping at the first row whose characters do not split. */
  function MapRows(raw: seq<Value>, f: Value -> Outcome): (r: Outcome)
    ensures r.Returns? <==> forall i :: 0 <= i < |raw| ==> f(raw[i]).Returns?
    ensures r.Returns? ==> (r.value.Arr? && |r.value.items| == |raw|
      && forall i :: 0 <= i < |raw| ==> r.value.items[i] == f(raw[i]).value)
    decreases |raw|
  {
    if |raw| == 0 then Returns(Arr([]))
    else
      match MapRows(raw[..|raw| - 1], f)
      case Throws(e) => Throws(e)
      case Returns(done) =>
        match f(raw[|raw| - 1])
        case Throws(e) => Throws(e)
        case Returns(v) => Returns(Arr(done.items + [v]))
  }

  const NoMovie := PlainError("No record exists of a movie with this ID")

  /** `rows.map(f)` over the selected rows, each read as an object. */
  function MapObjects(raw: seq<Row>, f: Value -> Outcome): (r: Outcome)
    ensures r.Returns? <==> forall i :: 0 <= i < |raw| ==> f(Obj(raw[i])).Returns?
    ensures r.Returns? ==> (r.value.Arr? && |r.value.items| == |raw|
      && forall i :: 0 <= i < |raw| ==> r.value.items[i] == f(Obj(raw[i])).value)
  {
    var rows := seq(|raw|, i requires 0 <= i < |raw| => Obj(raw[i]));
    assert forall i :: 0 <= i < |raw| ==> rows[i] == Obj(raw[i]);
    MapRows(rows, f)
  }

  /** The detail record of a movie. */
  datatype Details = Details(
    title: Value, year: Value, runtime: Value, genres: Value, country: Value,
    principals: seq<Value>, ratings: seq<Rating>, boxoffice: Value, poster: Value, plot: Value)

  datatype DetailsOutcome = Detailed(details: Details) | DetailsThrow(thrown: Value)

  function RatingJson(r: Rating): Value
  {
    Obj(map["source" := Str(r.source), "value" := r.value])
  }

  /** The record as the JSON object the route sends. */
  function DetailsJson(d: Details): (v: Value)
    ensures Field(v, "title") == d.title && Field(v, "year") == d.year && Field(v, "runtime") == d.runtime
    ensures Field(v, "genres") == d.genres && Field(v, "country") == d.country
    ensures Field(v, "principals") == Arr(d.principals)
    ensures Field(v, "ratings").Arr? && |Field(v, "ratings").items| == |d.ratings|
    ensures forall i :: 0 <= i < |d.ratings| ==>
      Field(v, "ratings").items[i] == Obj(map["source" := Str(d.ratings[i].source), "value" := d.ratings[i].value])
    ensures Field(v, "boxoffice") == d.boxoffice && Field(v, "poster") == d.poster && Field(v, "plot") == d.plot
  {
    Obj(map[
      "title" := d.title, "year" := d.year, "runtime" := d.runtime, "genres" := d.genres,
      "country" := d.country, "principals" := Arr(d.principals),
      "ratings" := Arr(seq(|d.ratings|, i requires 0 <= i < |d.ratings| => RatingJson(d.ratings[i]))),
      "boxoffice" := d.boxoffice, "poster" := d.poster, "plot" := d.plot])
  }

  /** The detail record `getMovieDetails` builds from the selected rows, or
      the value its promise rejects with: no rows, or a `genres` or
      `characters` value that is not a string. */
  function MovieDetails(raw: seq<Row>): (r: DetailsOutcome)
    ensures |raw| == 0 ==> r == DetailsThrow(NoMovie)
    ensures r.Detailed? <==> (|raw| > 0 && Field(Obj(raw[0]), "genres").Str?
      && forall i :: 0 <= i < |raw| ==> Field(Obj(raw[i]), "characters").Str?)
  {
    if |raw| == 0 then DetailsThrow(NoMovie)
    else
      var first := Obj(raw[0]);
      var genres := SplitValue(Field(first, "genres"));
      var principals := MapObjects(raw, Principal);
      if genres.Throws? then DetailsThrow(genres.thrown)
      else if principals.Throws? then DetailsThrow(principals.thrown)
      else
        Detailed(Details(
          Field(first, "title"), Field(first, "year"), Field(first, "runtime"), genres.value,
          Field(first, "country"), principals.value.items, WithoutNulls(RatingSources(first)),
          Field(first, "boxoffice"), Field(first, "poster"), Field(first, "plot")))
  }

  /** The joined basics/principals rows of one movie, selected through
      `MOVIE_DETAILS_MAP`. */
  function DetailRows(joined: seq<Row>, imdbID: string): (raw: seq<Row>)
    ensures |raw| <= |joined|
  {
    var rows := WhereEquals(joined, "tconst", Str(imdbID));
    seq(|rows|, i requires 0 <= i < |rows| => Project(MovieDetailsMap, rows[i]))
  }

  /** `where(column, value)`: the rows whose column equals the value, in table order. */
  function WhereEquals(rows: seq<Row>, column: string, value: Value): (r: seq<Row>)
    ensures |r| <= |rows|
    ensures forall x :: x in r <==> x in rows && Field(Obj(x), column) == value
    decreases |rows|
  {
    if |rows| == 0 then []
    else
      var rest := WhereEquals(rows[1..], column, value);
      assert forall x :: x in rows <==> x == rows[0] || x in rows[1..];
      if Field(Obj(rows[0]), column) == value then [rows[0]] + rest else rest
  }

  /** Shaping a found movie: one principal per joined row in row order, with
      its characters split on ","; the genres split on ","; the single-valued
      fields from the first row. */
  lemma {:induction false} MovieDetailsShape(raw: seq<Row>)
    requires MovieDetails(raw).Detailed?
    ensures var d := MovieDetails(raw).details; var first := Obj(raw[0]);
      && d.genres == Arr(Texts(Split(Field(first, "genres").s, ',')))
      && d.title == Field(first, "title") && d.plot == Field(first, "plot")
      && |d.principals| == |raw|
      && forall i :: 0 <= i < |raw| ==>
           var row := Obj(raw[i]);
           && Field(d.principals[i], "characters") == Arr(Texts(Split(Field(row, "characters").s, ',')))
           && Field(d.principals[i], "name") == Field(row, "name")
           && Field(d.principals[i], "id") == Field(row, "id")
  {
    var p := MapObjects(raw, Principal);
    assert p.Returns?;
    assert MovieDetails(raw).details.principals == p.value.items;
  }

  /** The ratings are the fixed order IMDb, Rotten Tomatoes, Metacritic with
      the null-valued entries removed: an order-preserving subsequence of at
      most three entries, none null, missing none that is not null. */
  lemma MovieDetailsRatings(raw: seq<Row>)
    requires MovieDetails(raw).Detailed?
    ensures var kept := MovieDetails(raw).details.ratings; var all := RatingSources(Obj(raw[0]));
      && |kept| <= 3
      && IsSubsequence(kept, all)
      && (forall i :: 0 <= i < |kept| ==> !kept[i].value.Null?)
      && (forall i :: 0 <= i < 3 && !all[i].value.Null? ==> all[i] in kept)
  {
    var kept := MovieDetails(raw).details.ratings;
    forall i | 0 <= i < |kept| ensures !kept[i].value.Null? {
      assert kept[i] in kept;
    }
  }

  /** `/data/:imdbID`: the detail record, or no answer at all when the
      promise rejects (the handler has no `catch`). */
  function DataRoute(joined: seq<Row>, imdbID: string): (reply: Reply)
    ensures WhereEquals(joined, "tconst", Str(imdbID)) == [] ==> reply == Unanswered(NoMovie)
    ensures reply.Respond? ==> reply.status == Num(200)
    ensures MovieDetails(DetailRows(joined, imdbID)).Detailed? ==>
      reply == Respond(Num(200), DetailsJson(MovieDetails(DetailRows(joined, imdbID)).details))
    ensures MovieDetails(DetailRows(joined, imdbID)).DetailsThrow? ==>
      reply == Unanswered(MovieDetails(DetailRows(joined, imdbID)).thrown)
  {
    match MovieDetails(DetailRows(joined, imdbID))
    case Detailed(d) => Respond(Num(200), DetailsJson(d))
    case DetailsThrow(e) => Unanswered(e)
  }
}
