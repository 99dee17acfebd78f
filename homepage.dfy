/** The home page (client/src/pages/HomePage/HomePage.js, and its older
    copy client/src/pages/HomePage.js): one search per year from 2023 down
    to 2020, the first 20 movies of each answer collected in request order,
    and one grid per year. The searches' answers are a parameter: the routed
    page's `getEndpoint` comes from client/src/utils/fetcher.js, which is
    not part of this model. */
module HomePage {
  import opened Js
  import opened Strings

  const StartYear := 2023
  const EndYear := 2020
  const Size := 20

  /** The number of years searched. */
  const YearCount := StartYear - EndYear + 1

  function Min(a: int, b: int): int { if a < b then a else b }

  // ---- getMoviesByYear ----

  /** `movie.year === year`; None when `movie` is undefined or null, where
      reading `year` throws. */
  function YearIs(movie: Value, year: int): (r: Option<bool>)
    ensures r.None? <==> movie.Undefined? || movie.Null?
  {
    match Prop(movie, "year")
    case None => None
    case Some(y) => Some(y == Num(year))
  }

  /** `movies.filter((movie) => movie.year === year)`; None when the filter
      throws on an undefined or null movie. */
  function MoviesByYear(movies: seq<Value>, year: int): (r: Option<seq<Value>>)
    ensures r.None? <==> exists i :: 0 <= i < |movies| && YearIs(movies[i], year).None?
    ensures r.Some? ==> |r.value| <= |movies|
    decreases |movies|
  {
    if |movies| == 0 then Some([])
    else
      match YearIs(movies[0], year)
      case None => None
      case Some(keep) =>
        match MoviesByYear(movies[1..], year)
        case None =>
          assert forall i :: 0 <= i < |movies| - 1 ==> movies[1..][i] == movies[i + 1];
          None
        case Some(rest) =>
          Some(if keep then [movies[0]] + rest else rest)
  }

  /** The filter keeps exactly the movies of that year. */
  lemma {:induction false} MoviesByYearMembers(movies: seq<Value>, year: int, m: Value)
    requires MoviesByYear(movies, year).Some?
    ensures m in MoviesByYear(movies, year).value <==> m in movies && YearIs(m, year) == Some(true)
    decreases |movies|
  {
    if |movies| > 0 {
      MoviesByYearMembers(movies[1..], year, m);
      assert m in movies <==> m == movies[0] || m in movies[1..];
    }
  }

  /** The filter keeps the order: filtering a concatenation is the
      concatenation of the filtered parts. */
  lemma {:induction false} MoviesByYearConcat(a: seq<Value>, b: seq<Value>, year: int)
    requires MoviesByYear(a, year).Some? && MoviesByYear(b, year).Some?
    ensures MoviesByYear(a + b, year) == Some(MoviesByYear(a, year).value + MoviesByYear(b, year).value)
    decreases |a|
  {
    if |a| > 0 {
      assert (a + b)[1..] == a[1..] + b;
      assert (a + b)[0] == a[0];
      MoviesByYearConcat(a[1..], b, year);
      var head := if YearIs(a[0], year).value then [a[0]] else [];
      assert MoviesByYear(a, year).value == head + MoviesByYear(a[1..], year).value;
      assert MoviesByYear(a + b, year).value == head + MoviesByYear(a[1..] + b, year).value;
      assert head + (MoviesByYear(a[1..], year).value + MoviesByYear(b, year).value)
        == (head + MoviesByYear(a[1..], year).value) + MoviesByYear(b, year).value;
    } else {
      assert a + b == b;
      assert MoviesByYear(a, year).value + MoviesByYear(b, year).value == MoviesByYear(b, year).value;
    }
  }

  /** Each movie is kept exactly when its year is the one asked for. */
  lemma MoviesByYearOfOne(movie: Value, year: int)
    requires !movie.Undefined? && !movie.Null?
    ensures MoviesByYear([movie], year) == Some(if Prop(movie, "year") == Some(Num(year)) then [movie] else [])
  {
    assert [movie][1..] == [];
    assert [movie] + [] == [movie];
  }

  // ---- the searches ----

  /** `/movies/search?year=${year}&page=1`. */
  function SearchEndpoint(year: int): string
  {
    "/movies/search?year=" + IntToString(year) + "&page=1"
  }

  lemma {:induction false} QueryReadsBack(prefix: string, digits: string, suffix: string)
    requires '&' !in prefix && '&' !in suffix && IsDigits(digits)
    ensures Split(prefix + digits + "&" + suffix, '&') == [prefix + digits, suffix]
  {
    assert '&' !in prefix + digits by {
      forall i | 0 <= i < |prefix + digits| ensures (prefix + digits)[i] != '&' {
        if i >= |prefix| {
          assert (prefix + digits)[i] == digits[i - |prefix|];
        }
      }
    }
    assert prefix + digits + "&" + suffix == (prefix + digits) + ['&'] + suffix;
    SplitAtFirst(prefix + digits, '&', suffix);
    SplitWithoutSeparator(suffix, '&');
    assert [prefix + digits] + [suffix] == [prefix + digits, suffix];
  }

  /** The year reads back from a search endpoint: the query splits into
      the year parameter and `page=1`, and the year's digits are its value. */
  lemma SearchEndpointReadsBack(year: nat)
    ensures Split(SearchEndpoint(year), '&') == ["/movies/search?year=" + NatToString(year), "page=1"]
    ensures Decimal(NatToString(year)) == year
  {
    assert SearchEndpoint(year) == "/movies/search?year=" + NatToString(year) + "&" + "page=1";
    QueryReadsBack("/movies/search?year=", NatToString(year), "page=1");
    DecimalOfNatToString(year);
  }

  /** Distinct years give distinct endpoints. */
  lemma SearchEndpointsDiffer(a: nat, b: nat)
    requires a != b
    ensures SearchEndpoint(a) != SearchEndpoint(b)
  {
    SearchEndpointReadsBack(a);
    SearchEndpointReadsBack(b);
    var p := "/movies/search?year=";
    assert NatToString(a) == (p + NatToString(a))[|p|..];
    assert NatToString(b) == (p + NatToString(b))[|p|..];
  }

  /** The routed page's request loop: one search per year, 2023 first. */
  method SearchRequests() returns (endpoints: seq<string>)
    ensures |endpoints| == YearCount
    ensures forall i :: 0 <= i < |endpoints| ==> endpoints[i] == SearchEndpoint(StartYear - i)
  {
    endpoints := SearchesFrom(StartYear, EndYear, SearchEndpoint);
  }

  /** `for (let year = first; year >= last; year--) requests.push(...)`,
      with the endpoint of a year given by `endpoint`. */
  method SearchesFrom(first: int, last: int, endpoint: int -> string) returns (endpoints: seq<string>)
    requires last <= first
    ensures |endpoints| == first - last + 1
    ensures forall i :: 0 <= i < |endpoints| ==> endpoints[i] == endpoint(first - i)
  {
    endpoints := [];
    var year := first;
    while year >= last
      invariant last - 1 <= year <= first
      invariant |endpoints| == first - year
      invariant forall i :: 0 <= i < |endpoints| ==> endpoints[i] == endpoint(first - i)
    {
      endpoints := endpoints + [endpoint(year)];
      year := year - 1;
    }
  }

  /** The years of the searches are distinct and strictly decreasing. */
  lemma SearchesDescend(endpoints: seq<string>, i: nat, j: nat)
    requires |endpoints| == YearCount
    requires forall k :: 0 <= k < |endpoints| ==> endpoints[k] == SearchEndpoint(StartYear - k)
    requires i < j < |endpoints|
    ensures endpoints[i] != endpoints[j]
    ensures StartYear - i > StartYear - j >= EndYear
  {
    SearchEndpointsDiffer(StartYear - i, StartYear - j);
  }

  /** `user.bearerToken.token`; None when either read throws. */
  function BearerToken(user: Value): (r: Option<Value>)
    ensures r.None? <==> Prop(user, "bearerToken").None? || Prop(Prop(user, "bearerToken").value, "token").None?
  {
    match Prop(user, "bearerToken")
    case None => None
    case Some(bearer) => Prop(bearer, "token")
  }

  /** The older page's request loop: each search carries the user's bearer
      token. When that token cannot be read the loop throws on its first
      turn, before any request is made. */
  method LegacySearchRequests(user: Value) returns (requests: seq<(string, Value)>, thrown: Option<Value>)
    ensures thrown.Some? <==> BearerToken(user).None?
    ensures thrown.Some? ==> requests == [] && thrown == Some(PropertyOfNothing)
    ensures thrown.None? ==> |requests| == YearCount
    ensures thrown.None? ==>
      forall i :: 0 <= i < |requests| ==> requests[i] == (SearchEndpoint(StartYear - i), BearerToken(user).value)
  {
    requests, thrown := LegacySearchesFrom(user, StartYear, EndYear);
  }

  method LegacySearchesFrom(user: Value, first: int, last: int)
    returns (requests: seq<(string, Value)>, thrown: Option<Value>)
    requires last <= first
    ensures thrown.Some? <==> BearerToken(user).None?
    ensures thrown.Some? ==> requests == [] && thrown == Some(PropertyOfNothing)
    ensures thrown.None? ==> |requests| == first - last + 1
    ensures thrown.None? ==>
      forall i :: 0 <= i < |requests| ==> requests[i] == (SearchEndpoint(first - i), BearerToken(user).value)
  {
    requests := [];
    var year := first;
    while year >= last
      invariant last - 1 <= year <= first
      invariant |requests| == first - year
      invariant year < first ==> BearerToken(user).Some?
      invariant forall i :: 0 <= i < |requests| ==>
        requests[i] == (SearchEndpoint(first - i), BearerToken(user).value)
    {
      var token := BearerToken(user);
      if token.None? {
        return [], Some(PropertyOfNothing);
      }
      requests := requests + [(SearchEndpoint(year), token.value)];
      year := year - 1;
    }
    thrown := None;
  }

  // ---- collecting the answers ----

  /** `Promise.all(requests)`: the answers in request order, or a rejection
      when any request fails. Which failure is reported depends on timing;
      the page ignores it. */
  function AllAnswers(answers: seq<Outcome>): (r: Option<seq<Value>>)
    ensures r.Some? <==> forall i :: 0 <= i < |answers| ==> answers[i].Returns?
    ensures r.Some? ==> |r.value| == |answers| && forall i :: 0 <= i < |answers| ==> r.value[i] == answers[i].value
  {
    if forall i :: 0 <= i < |answers| ==> answers[i].Returns?
    then Some(seq(|answers|, i requires 0 <= i < |answers| && answers[i].Returns? => answers[i].value))
    else None
  }

  /** `response.data.slice(0, SIZE)` as one answer's contribution to the
      flattened list: the first 20 items of an array. A string's slice is a
      string, which `flat()` keeps as one element; anything else has no
      `slice` and throws. */
  function Piece(response: Value): (r: Outcome)
    ensures Prop(response, "data").None? ==> r == Throws(PropertyOfNothing)
    ensures r.Returns? ==> r.value.Arr? && |r.value.items| <= Size
    ensures Field(response, "data").Arr? && Prop(response, "data").Some? ==>
      var items := Field(response, "data").items;
      r == Returns(Arr(items[..Min(Size, |items|)]))
  {
    match Prop(response, "data")
    case None => Throws(PropertyOfNothing)
    case Some(data) =>
      match data
      case Arr(items) => Returns(Arr(items[..Min(Size, |items|)]))
      case Str(s) => Returns(Arr([Str(s[..Min(Size, |s|)])]))
      case _ => Throws(Error("TypeError", "response.data.slice is not a function"))
  }

  /** `responses.map((response) => response.data.slice(0, SIZE))`: one
      outcome per answer, in order. */
  function Pieces(responses: seq<Value>): (r: seq<Outcome>)
    ensures |r| == |responses| && forall k :: 0 <= k < |responses| ==> r[k] == Piece(responses[k])
  {
    seq(|responses|, k requires 0 <= k < |responses| => Piece(responses[k]))
  }

  /** The elements one returned piece contributes to `flat()`: an array's
      items, or the value itself. */
  function Spread(v: Value): seq<Value>
  {
    if v.Arr? then v.items else [v]
  }

  /** `map(...)` followed by `flat()`: the first throw, or the pieces'
      elements in order. */
  function Flat(pieces: seq<Outcome>): (r: Outcome)
    ensures r.Returns? ==> r.value.Arr?
    decreases |pieces|
  {
    if |pieces| == 0 then Returns(Arr([]))
    else if pieces[0].Throws? then pieces[0]
    else
      var tail := Flat(pieces[1..]);
      if tail.Throws? then tail else Returns(Arr(Spread(pieces[0].value) + tail.value.items))
  }

  /** `responses.map((response) => response.data.slice(0, SIZE)).flat()`. */
  function Collected(responses: seq<Value>): (r: Outcome)
    ensures r.Returns? ==> r.value.Arr? && |r.value.items| <= Size * |responses|
  {
    var pieces := Pieces(responses);
    FlatBound(pieces, Size);
    Flat(pieces)
  }

  /** Pieces of at most `n` elements flatten to at most `n` per piece. */
  lemma {:induction false} FlatBound(pieces: seq<Outcome>, n: nat)
    requires forall k :: 0 <= k < |pieces| && pieces[k].Returns? ==>
      pieces[k].value.Arr? && |pieces[k].value.items| <= n
    ensures Flat(pieces).Returns? ==> |Flat(pieces).value.items| <= n * |pieces|
    decreases |pieces|
  {
    if |pieces| > 0 && pieces[0].Returns? {
      assert forall k :: 1 <= k < |pieces| ==> pieces[1..][k - 1] == pieces[k];
      FlatBound(pieces[1..], n);
      assert n * |pieces| == n + n * |pieces[1..]|;
    }
  }

  /** Flattening returns exactly when every piece does, and a failure is
      the first failing piece. */
  lemma {:induction false} FlatOutcome(pieces: seq<Outcome>)
    ensures Flat(pieces).Returns? <==> forall k :: 0 <= k < |pieces| ==> pieces[k].Returns?
    ensures Flat(pieces).Throws? ==>
      exists k :: 0 <= k < |pieces| && Flat(pieces) == pieces[k] && forall j :: 0 <= j < k ==> pieces[j].Returns?
    decreases |pieces|
  {
    if |pieces| > 0 {
      FlatOutcome(pieces[1..]);
      assert forall k :: 1 <= k < |pieces| ==> pieces[1..][k - 1] == pieces[k];
      if Flat(pieces).Throws? && pieces[0].Returns? {
        var k :| 0 <= k < |pieces[1..]| && Flat(pieces[1..]) == pieces[1..][k]
          && forall j :: 0 <= j < k ==> pieces[1..][j].Returns?;
        assert forall j :: 0 <= j < k + 1 ==> pieces[j].Returns? by {
          forall j | 0 <= j < k + 1 ensures pieces[j].Returns? {
            if j > 0 { assert pieces[j] == pieces[1..][j - 1]; }
          }
        }
      }
    }
  }

  /** Flattening keeps the order: the flattening of a concatenation is the
      concatenation of the flattenings. */
  lemma {:induction false} FlatConcat(a: seq<Outcome>, b: seq<Outcome>)
    requires Flat(a).Returns? && Flat(b).Returns?
    ensures Flat(a + b) == Returns(Arr(Flat(a).value.items + Flat(b).value.items))
    decreases |a|
  {
    if |a| > 0 {
      assert (a + b)[1..] == a[1..] + b;
      assert (a + b)[0] == a[0];
      FlatConcat(a[1..], b);
      var h, ta, tb := Spread(a[0].value), Flat(a[1..]).value.items, Flat(b).value.items;
      assert h + (ta + tb) == (h + ta) + tb;
    } else {
      assert a + b == b;
    }
  }

  /** Collecting returns exactly when every answer's piece does, and a
      failure is that of the first answer whose piece fails. */
  lemma CollectedOutcome(responses: seq<Value>)
    ensures Collected(responses).Returns? <==> forall k :: 0 <= k < |responses| ==> Piece(responses[k]).Returns?
    ensures Collected(responses).Throws? ==>
      exists k :: 0 <= k < |responses| && Collected(responses) == Piece(responses[k])
        && forall j :: 0 <= j < k ==> Piece(responses[j]).Returns?
  {
    FlatOutcome(Pieces(responses));
  }

  /** Collecting keeps the request order: the answers of a concatenation of
      request lists are the concatenation of their answers. */
  lemma CollectedConcat(a: seq<Value>, b: seq<Value>)
    requires Collected(a).Returns? && Collected(b).Returns?
    ensures Collected(a + b) == Returns(Arr(Collected(a).value.items + Collected(b).value.items))
  {
    assert Pieces(a + b) == Pieces(a) + Pieces(b);
    FlatConcat(Pieces(a), Pieces(b));
  }

  /** One answer contributes exactly its piece. */
  lemma CollectedOfOne(response: Value)
    requires Piece(response).Returns?
    ensures Collected([response]) == Piece(response)
  {
    var pieces := Pieces([response]);
    assert pieces[0] == Piece(response);
    assert Flat(pieces[1..]) == Returns(Arr([])) by { assert pieces[1..] == []; }
    var items := Piece(response).value.items;
    assert Spread(Piece(response).value) + [] == items;
    assert Piece(response) == Returns(Arr(items));
  }

  // ---- the grids ----

  datatype Grid = Grid(year: int, movies: seq<Value>)

  /** The grid of `year`: its label and that year's movies. */
  predicate GridOf(g: Grid, movies: seq<Value>, year: int)
  {
    g.year == year && MoviesByYear(movies, year) == Some(g.movies)
  }

  /** The render loop: one grid per year, 2023 first, each holding that
      year's movies; None when filtering throws. */
  method Grids(movies: seq<Value>) returns (grids: Option<seq<Grid>>)
    ensures grids.None? <==> exists i :: 0 <= i < |movies| && (movies[i].Undefined? || movies[i].Null?)
    ensures grids.Some? ==> |grids.value| == YearCount
    ensures grids.Some? ==> forall i :: 0 <= i < |grids.value| ==>
      GridOf(grids.value[i], movies, StartYear - i)
  {
    grids := GridsFrom(movies, StartYear, EndYear);
  }

  method GridsFrom(movies: seq<Value>, first: int, last: int) returns (grids: Option<seq<Grid>>)
    requires last <= first
    ensures grids.None? <==> exists i :: 0 <= i < |movies| && (movies[i].Undefined? || movies[i].Null?)
    ensures grids.Some? ==> |grids.value| == first - last + 1
    ensures grids.Some? ==> forall i :: 0 <= i < |grids.value| ==>
      GridOf(grids.value[i], movies, first - i)
  {
    var built: seq<Grid> := [];
    var year := first;
    while year >= last
      invariant last - 1 <= year <= first
      invariant |built| == first - year
      invariant forall i :: 0 <= i < |built| ==>
        GridOf(built[i], movies, first - i)
      invariant year < first ==> forall i :: 0 <= i < |movies| ==> !(movies[i].Undefined? || movies[i].Null?)
    {
      var byYear := MoviesByYear(movies, year);
      if byYear.None? {
        var i :| 0 <= i < |movies| && YearIs(movies[i], year).None?;
        return None;
      }
      forall i | 0 <= i < |movies| ensures !(movies[i].Undefined? || movies[i].Null?) {
        assert YearIs(movies[i], year).Some?;
      }
      built := built + [Grid(year, byYear.value)];
      year := year - 1;
    }
    grids := Some(built);
  }

  /** A movie whose year is one of the searched years appears in that
      year's grid and in no other. */
  lemma GridsPartition(movies: seq<Value>, grids: seq<Grid>, movie: Value, year: int)
    requires |grids| == YearCount
    requires forall i :: 0 <= i < |grids| ==>
      GridOf(grids[i], movies, StartYear - i)
    requires movie in movies && Prop(movie, "year") == Some(Num(year)) && EndYear <= year <= StartYear
    ensures movie in grids[StartYear - year].movies
    ensures forall i :: 0 <= i < |grids| && i != StartYear - year ==> movie !in grids[i].movies
  {
    assert GridOf(grids[StartYear - year], movies, StartYear - (StartYear - year));
    MoviesByYearMembers(movies, year, movie);
    forall i | 0 <= i < |grids| && i != StartYear - year
      ensures movie !in grids[i].movies
    {
      MoviesByYearMembers(movies, StartYear - i, movie);
    }
  }

  // ---- the page ----

  /** The outcomes of the requests, in request order. */
  function Answers(endpoints: seq<string>, respond: string -> Outcome): (answers: seq<Outcome>)
    ensures |answers| == |endpoints|
    ensures forall i :: 0 <= i < |endpoints| ==> answers[i] == respond(endpoints[i])
  {
    seq(|endpoints|, i requires 0 <= i < |endpoints| => respond(endpoints[i]))
  }

  /** The outcomes of the legacy requests, each sent with its token. */
  function LegacyAnswers(requests: seq<(string, Value)>, respond: (string, Value) -> Outcome): (answers: seq<Outcome>)
    ensures |answers| == |requests|
    ensures forall i :: 0 <= i < |requests| ==> answers[i] == respond(requests[i].0, requests[i].1)
  {
    seq(|requests|, i requires 0 <= i < |requests| => respond(requests[i].0, requests[i].1))
  }

  /** What the page shows. */
  datatype View = Loading | SomethingWentWrong | Shown(grids: seq<Grid>) | RenderThrows

  /** Both copies of the page: its movies and its loading and error flags.
      After the movies are set, `loadDetails` runs on them (see
      DetailsLoader); it catches every failure, so it never reaches the
      page's `catch`. */
  class Home {
    var movies: seq<Value>
    var isError: bool
    var isLoading: bool

    constructor()
      ensures movies == [] && !isError && isLoading
    {
      movies := [];
      isError := false;
      isLoading := true;
    }

    /** The `try` of `fetchMovies` once the requests are made: `answers`
        are their outcomes in request order. Any failure sets `isError` and
        clears `isLoading`; otherwise the collected movies are shown. */
    method Settle(answers: seq<Outcome>)
      modifies this
      ensures AllAnswers(answers).None? ==> movies == old(movies) && isError && !isLoading
      ensures AllAnswers(answers).Some? && Collected(AllAnswers(answers).value).Throws? ==>
        movies == old(movies) && isError && !isLoading
      ensures AllAnswers(answers).Some? && Collected(AllAnswers(answers).value).Returns? ==>
        movies == Collected(AllAnswers(answers).value).value.items && isError == old(isError) && !isLoading
    {
      var responses := AllAnswers(answers);
      if responses.None? {
        isError := true;
        isLoading := false;
        return;
      }
      var collected := Collected(responses.value);
      if collected.Throws? {
        isError := true;
        isLoading := false;
        return;
      }
      movies := collected.value.items;
      isLoading := false;
    }

    /** The routed page's `fetchMovies`: the four searches, then `Settle`.
        At most 80 movies are shown. */
    method FetchMovies(respond: string -> Outcome) returns (endpoints: seq<string>)
      modifies this
      ensures |endpoints| == YearCount
      ensures forall i :: 0 <= i < |endpoints| ==> endpoints[i] == SearchEndpoint(StartYear - i)
      ensures !isLoading
      ensures !isError ==> |movies| <= Size * YearCount
      ensures (exists i :: 0 <= i < |endpoints| && respond(endpoints[i]).Throws?) ==> isError
      ensures var responses := AllAnswers(Answers(endpoints, respond));
        && (responses.None? ==> movies == old(movies) && isError)
        && (responses.Some? && Collected(responses.value).Throws? ==> movies == old(movies) && isError)
        && (responses.Some? && Collected(responses.value).Returns? ==>
              movies == Collected(responses.value).value.items && isError == old(isError))
    {
      endpoints := SearchRequests();
      var answers := Answers(endpoints, respond);
      Settle(answers);
    }

    /** The older page's `fetchMovies`: when the bearer token cannot be
        read, the function throws outside its `try`, so the page keeps
        showing "Loading..." and no search is made. */
    method LegacyFetchMovies(user: Value, respond: (string, Value) -> Outcome)
      returns (requests: seq<(string, Value)>)
      modifies this
      ensures BearerToken(user).None? ==>
        requests == [] && movies == old(movies) && isError == old(isError) && isLoading == old(isLoading)
      ensures BearerToken(user).Some? ==>
        |requests| == YearCount && !isLoading &&
        (forall i :: 0 <= i < |requests| ==> requests[i] == (SearchEndpoint(StartYear - i), BearerToken(user).value))
      ensures BearerToken(user).Some? && !isError ==> |movies| <= Size * YearCount
      ensures BearerToken(user).Some? ==>
        var responses := AllAnswers(LegacyAnswers(requests, respond));
        && (responses.None? ==> movies == old(movies) && isError)
        && (responses.Some? && Collected(responses.value).Throws? ==> movies == old(movies) && isError)
        && (responses.Some? && Collected(responses.value).Returns? ==>
              movies == Collected(responses.value).value.items && isError == old(isError))
    {
      var thrown;
      requests, thrown := LegacySearchRequests(user);
      if thrown.Some? {
        return;
      }
      var answers := LegacyAnswers(requests, respond);
      Settle(answers);
    }

    /** The render: loading first, then the error, then one grid per year. */
    method Render() returns (view: View)
      ensures isLoading ==> view == Loading
      ensures !isLoading && isError ==> view == SomethingWentWrong
      ensures !isLoading && !isError ==>
        (view.RenderThrows? <==> exists i :: 0 <= i < |movies| && (movies[i].Undefined? || movies[i].Null?))
      ensures view.Shown? ==>
        |view.grids| == YearCount &&
        forall i :: 0 <= i < |view.grids| ==>
          GridOf(view.grids[i], movies, StartYear - i)
    {
      if isLoading {
        return Loading;
      }
      if isError {
        return SomethingWentWrong;
      }
      var grids := Grids(movies);
      if grids.None? {
        return RenderThrows;
      }
      view := Shown(grids.value);
    }
  }
}
