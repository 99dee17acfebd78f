/** `MovieDetailsLoader` (client/src/utils/movieDetailsLoader.js): fetches
    the details of movies one at a time, in index order, with a three-tier
    delay schedule, assigning each result to `movie.data` and to the details
    map held in React state. */
module DetailsLoader {
  import opened Js
  import opened FetchTransform
  import opened MovieObjects

  const DelayBeforeEachFetch := 1800

  /** The wait before the fetch of movie `i` with the given first batch
      size, in milliseconds. */
  function Delay(i: nat, initialBatchSize: int): (ms: int)
    ensures i < initialBatchSize ==> ms == 0
    ensures i == initialBatchSize ==> ms == (initialBatchSize + 1) * DelayBeforeEachFetch
    ensures i > initialBatchSize ==> ms == DelayBeforeEachFetch
  {
    var delay := if i < initialBatchSize then 0 else DelayBeforeEachFetch;
    if i == initialBatchSize then (initialBatchSize + 1) * DelayBeforeEachFetch else delay
  }

  /** The waits of the first `n` movies added up. */
  function TotalDelay(n: nat, initialBatchSize: int): int
  {
    if n == 0 then 0 else TotalDelay(n - 1, initialBatchSize) + Delay(n - 1, initialBatchSize)
  }

  /** The long pause after the first batch makes up for it: loading more
      movies than the first batch waits 1800 ms per movie in total, and a
      list no longer than the first batch is not delayed at all. */
  lemma {:induction false} TotalDelayOf(n: nat, initialBatchSize: int)
    ensures TotalDelay(n, initialBatchSize) == if n <= initialBatchSize then 0 else DelayBeforeEachFetch * n
  {
    if n > 0 {
      TotalDelayOf(n - 1, initialBatchSize);
    }
  }

  /** The details map after the loop: each successful fetch, in index
      order, sets `imdbID ↦ data`. */
  function Recorded(details: map<string, Value>, movies: seq<Movie?>, attempts: seq<Outcome>): map<string, Value>
    requires |movies| == |attempts|
    decreases |movies|
  {
    if |movies| == 0 then details
    else
      var n := |movies| - 1;
      var before := Recorded(details, movies[..n], attempts[..n]);
      if movies[n] != null && attempts[n].Returns? then before[DetailsKey(movies[n].imdbID) := attempts[n].value]
      else before
  }

  /** The number of successful fetches. */
  function Successes(attempts: seq<Outcome>): nat
    decreases |attempts|
  {
    if |attempts| == 0 then 0
    else Successes(attempts[..|attempts| - 1]) + (if attempts[|attempts| - 1].Returns? then 1 else 0)
  }

  /** The `data` of movie object `m` after the loop: the data of the last
      successful fetch at a position holding `m`, else what it was. */
  function LastData(movies: seq<Movie?>, attempts: seq<Outcome>, m: Movie, initial: Value): Value
    requires |movies| == |attempts|
    decreases |movies|
  {
    if |movies| == 0 then initial
    else
      var n := |movies| - 1;
      if movies[n] == m && attempts[n].Returns? then attempts[n].value
      else LastData(movies[..n], attempts[..n], m, initial)
  }

  /** The requests the loop sends when the cache is not used: one per movie
      object, in index order, each after its scheduled delay. */
  function Requests(movies: seq<Movie?>, initialBatchSize: int): seq<Fetch>
    decreases |movies|
  {
    if |movies| == 0 then []
    else
      var n := |movies| - 1;
      Requests(movies[..n], initialBatchSize)
      + (if movies[n] != null then [Fetch(DataEndpoint(movies[n].imdbID), Authorization(Null), Delay(n, initialBatchSize))] else [])
  }

  /** Every movie is attempted exactly once, in index order: n movies give n
      requests, the i-th for movie i, sent after `Delay(i, b)` and without a
      token. */
  lemma {:induction false} RequestsInOrder(movies: seq<Movie?>, initialBatchSize: int)
    requires forall i :: 0 <= i < |movies| ==> movies[i] != null
    ensures |Requests(movies, initialBatchSize)| == |movies|
    ensures forall i :: 0 <= i < |movies| ==>
      Requests(movies, initialBatchSize)[i] == Fetch(DataEndpoint(movies[i].imdbID), "Bearer null", Delay(i, initialBatchSize))
    decreases |movies|
  {
    if |movies| > 0 {
      var n := |movies| - 1;
      RequestsInOrder(movies[..n], initialBatchSize);
    }
  }

  /** A key that no successful fetch sets keeps its old entry, or stays
      absent. */
  lemma {:induction false} RecordedLeavesOtherKeys(details: map<string, Value>, movies: seq<Movie?>, attempts: seq<Outcome>, key: string)
    requires |movies| == |attempts|
    requires forall i :: 0 <= i < |movies| && movies[i] != null && attempts[i].Returns? ==> DetailsKey(movies[i].imdbID) != key
    ensures key in Recorded(details, movies, attempts) <==> key in details
    ensures key in details ==> Recorded(details, movies, attempts)[key] == details[key]
    decreases |movies|
  {
    if |movies| > 0 {
      var n := |movies| - 1;
      RecordedLeavesOtherKeys(details, movies[..n], attempts[..n], key);
    }
  }

  /** The last successful fetch of a key decides its entry. */
  lemma {:induction false} RecordedByLastSuccess(details: map<string, Value>, movies: seq<Movie?>, attempts: seq<Outcome>, k: nat)
    requires |movies| == |attempts| && k < |movies|
    requires movies[k] != null && attempts[k].Returns?
    requires forall j :: k < j < |movies| && movies[j] != null && attempts[j].Returns? ==>
      DetailsKey(movies[j].imdbID) != DetailsKey(movies[k].imdbID)
    ensures DetailsKey(movies[k].imdbID) in Recorded(details, movies, attempts)
    ensures Recorded(details, movies, attempts)[DetailsKey(movies[k].imdbID)] == attempts[k].value
    decreases |movies|
  {
    var n := |movies| - 1;
    if k < n {
      RecordedByLastSuccess(details, movies[..n], attempts[..n], k);
    }
  }

  /** A movie none of whose fetches succeeded keeps its `data`. */
  lemma {:induction false} LastDataUntouched(movies: seq<Movie?>, attempts: seq<Outcome>, m: Movie, initial: Value)
    requires |movies| == |attempts|
    requires forall i :: 0 <= i < |movies| && movies[i] == m ==> attempts[i].Throws?
    ensures LastData(movies, attempts, m, initial) == initial
    decreases |movies|
  {
    if |movies| > 0 {
      var n := |movies| - 1;
      LastDataUntouched(movies[..n], attempts[..n], m, initial);
    }
  }

  /** Otherwise it holds the data of its last successful fetch. */
  lemma {:induction false} LastDataOf(movies: seq<Movie?>, attempts: seq<Outcome>, m: Movie, initial: Value, k: nat)
    requires |movies| == |attempts| && k < |movies|
    requires movies[k] == m && attempts[k].Returns?
    requires forall j :: k < j < |movies| && movies[j] == m ==> attempts[j].Throws?
    ensures LastData(movies, attempts, m, initial) == attempts[k].value
    decreases |movies|
  {
    var n := |movies| - 1;
    if k < n {
      LastDataOf(movies[..n], attempts[..n], m, initial, k);
    }
  }

  /** One more attempt extends each of the loop's summaries by its last
      position. */
  lemma ExtendSummaries(details: map<string, Value>, movies: seq<Movie?>, attempts: seq<Outcome>, fetched: Outcome,
                        i: nat, b: int)
    requires i < |movies| && |attempts| == i
    ensures var n := movies[..i + 1]; var a := attempts + [fetched];
      && Recorded(details, n, a) == (if movies[i] != null && fetched.Returns?
           then Recorded(details, movies[..i], attempts)[DetailsKey(movies[i].imdbID) := fetched.value]
           else Recorded(details, movies[..i], attempts))
      && Successes(a) == Successes(attempts) + (if fetched.Returns? then 1 else 0)
      && Requests(n, b) == Requests(movies[..i], b)
           + (if movies[i] != null then [Fetch(DataEndpoint(movies[i].imdbID), Authorization(Null), Delay(i, b))] else [])
      && forall m: Movie, initial: Value ::
           LastData(n, a, m, initial) == (if movies[i] == m && fetched.Returns? then fetched.value
             else LastData(movies[..i], attempts, m, initial))
  {
    var n := movies[..i + 1];
    var a := attempts + [fetched];
    assert n[..i] == movies[..i];
    assert a[..i] == attempts;
  }

  /** The loader. `details` is the React state behind `setMovieDetails`;
      `moviesUpdates` counts the `setMovies(prev => [...prev])` calls that
      re-render the movies. */
  class MovieDetailsLoader {
    var details: map<string, Value>
    var moviesUpdates: nat

    constructor (details: map<string, Value>)
      ensures this.details == details && moviesUpdates == 0
    {
      this.details := details;
      moviesUpdates := 0;
    }

    /** `fetchAndUpdate(movie, signal, waitBeforeFetch)`: `movie.imdbID` of a
        missing movie throws before any request; otherwise `getEndpoint` with
        no token, and on success `movie.data` and the details entry of the
        movie are set to the data. `fetched` is what `getEndpoint` settled
        with; the promise itself resolves to undefined or rejects with it. */
    method FetchAndUpdate(movie: Movie?, browser: Browser, server: (string, string) -> Outcome, waitBeforeFetch: int)
      returns (fetched: Outcome)
      modifies this, browser, movie
      ensures movie == null ==>
        fetched == Throws(PropertyOfNothing) && browser.cache == old(browser.cache) && browser.fetches == old(browser.fetches)
      ensures movie != null ==>
        var g := Get(browser.db, old(browser.cache), DataEndpoint(movie.imdbID), Null, waitBeforeFetch, server);
        fetched == g.outcome && browser.cache == g.cache && browser.fetches == old(browser.fetches) + g.fetched
      ensures movie != null && browser.db.Exported? && !Enabled(browser.db) ==>
        && fetched == Checked(server(DataEndpoint(movie.imdbID), Authorization(Null)))
        && browser.cache == old(browser.cache)
        && browser.fetches == old(browser.fetches) + [Fetch(DataEndpoint(movie.imdbID), Authorization(Null), waitBeforeFetch)]
      ensures browser.db.Absent? ==> fetched == Throws(PropertyOfNothing) && browser.fetches == old(browser.fetches)
      ensures browser.posts == old(browser.posts)
      ensures fetched.Returns? ==>
        movie != null && movie.data == fetched.value && details == old(details)[DetailsKey(movie.imdbID) := fetched.value]
      ensures fetched.Throws? ==> details == old(details) && (movie != null ==> movie.data == old(movie.data))
      ensures moviesUpdates == old(moviesUpdates)
    {
      if movie == null {
        return Throws(PropertyOfNothing);
      }
      ghost var cacheBefore := browser.cache;
      fetched := browser.GetEndpoint(DataEndpoint(movie.imdbID), Null, server, waitBeforeFetch);
      if browser.db.Exported? && !Enabled(browser.db) {
        GetWithoutSupport(browser.db, cacheBefore, DataEndpoint(movie.imdbID), Null, waitBeforeFetch, server);
      }
      if fetched.Returns? {
        movie.data := fetched.value;
        details := details[DetailsKey(movie.imdbID) := movie.data];
      }
    }

    /** One turn of the `loadDetails` loop: the scheduled delay, the awaited
        `fetchAndUpdate` of movie i, and `setMovies` on success. */
    method LoadAt(movies: seq<Movie?>, i: nat, browser: Browser, server: (string, string) -> Outcome,
                  initialBatchSize: int)
      returns (fetched: Outcome)
      requires i < |movies|
      modifies this, browser, set m: Movie | m in movies && m == movies[i]
      ensures movies[i] == null ==> fetched == Throws(PropertyOfNothing)
      ensures details == (if movies[i] != null && fetched.Returns?
        then old(details)[DetailsKey(movies[i].imdbID) := fetched.value] else old(details))
      ensures moviesUpdates == old(moviesUpdates) + (if fetched.Returns? then 1 else 0)
      ensures forall k :: 0 <= k < |movies| && movies[k] != null ==>
        movies[k].data == (if movies[i] == movies[k] && fetched.Returns? then fetched.value else old(movies[k].data))
      ensures browser.posts == old(browser.posts)
      ensures browser.db.Exported? && !Enabled(browser.db) ==>
        && browser.cache == old(browser.cache)
        && browser.fetches == old(browser.fetches)
             + (if movies[i] != null then [Fetch(DataEndpoint(movies[i].imdbID), Authorization(Null), Delay(i, initialBatchSize))] else [])
        && (movies[i] != null ==> fetched == Checked(server(DataEndpoint(movies[i].imdbID), Authorization(Null))))
      ensures browser.db.Absent? ==> browser.fetches == old(browser.fetches) && fetched == Throws(PropertyOfNothing)
    {
      var delay := if i < initialBatchSize then 0 else DelayBeforeEachFetch;
      if i == initialBatchSize {
        delay := (initialBatchSize + 1) * DelayBeforeEachFetch;
      }
      assert delay == Delay(i, initialBatchSize);
      fetched := FetchAndUpdate(movies[i], browser, server, delay);
      if fetched.Returns? {
        moviesUpdates := moviesUpdates + 1;
      }
    }

    /** The loop's invariant after the first `i` movies, against the state
        before the loop: `datas0[k]` was the `data` of `movies[k]`. */
    ghost predicate Loaded(movies: seq<Movie?>, i: nat, attempts: seq<Outcome>, browser: Browser,
                           server: (string, string) -> Outcome, initialBatchSize: int,
                           details0: map<string, Value>, updates0: nat, datas0: seq<Value>,
                           cache0: Cache, fetches0: seq<Fetch>, posts0: seq<Post>)
      reads this, browser, set m: Movie | m in movies
    {
      && i <= |movies| && |attempts| == i && |datas0| == |movies|
      && (forall k :: 0 <= k < i && movies[k] == null ==> attempts[k] == Throws(PropertyOfNothing))
      && details == Recorded(details0, movies[..i], attempts)
      && moviesUpdates == updates0 + Successes(attempts)
      && (forall k :: 0 <= k < |movies| && movies[k] != null ==>
            movies[k].data == LastData(movies[..i], attempts, movies[k], datas0[k]))
      && browser.posts == posts0
      && (browser.db.Exported? && !Enabled(browser.db) ==>
            && browser.cache == cache0
            && browser.fetches == fetches0 + Requests(movies[..i], initialBatchSize)
            && forall k :: 0 <= k < i && movies[k] != null ==>
                 attempts[k] == Checked(server(DataEndpoint(movies[k].imdbID), Authorization(Null))))
      && (browser.db.Absent? ==>
            browser.fetches == fetches0 && details == details0
            && forall k :: 0 <= k < i ==> attempts[k] == Throws(PropertyOfNothing))
    }

    /** One turn of the loop keeps its invariant. */
    method Advance(movies: seq<Movie?>, i: nat, ghost attempts: seq<Outcome>, browser: Browser,
                   server: (string, string) -> Outcome, initialBatchSize: int,
                   ghost details0: map<string, Value>, ghost updates0: nat, ghost datas0: seq<Value>,
                   ghost cache0: Cache, ghost fetches0: seq<Fetch>, ghost posts0: seq<Post>)
      returns (fetched: Outcome)
      requires i < |movies|
      requires Loaded(movies, i, attempts, browser, server, initialBatchSize, details0, updates0, datas0, cache0, fetches0, posts0)
      modifies this, browser, set m: Movie | m in movies && m == movies[i]
      ensures Loaded(movies, i + 1, attempts + [fetched], browser, server, initialBatchSize,
                     details0, updates0, datas0, cache0, fetches0, posts0)
    {
      fetched := LoadAt(movies, i, browser, server, initialBatchSize);
      ExtendSummaries(details0, movies, attempts, fetched, i, initialBatchSize);
    }

    /** `loadDetails(movies, setMovies, signal, initialBatchSize = 10)`: one
        awaited `fetchAndUpdate` per index, in order, with the scheduled delay;
        a failure is caught and the loop goes on. `attempts[i]` is what the
        fetch of movie i settled with. */
    method LoadDetails(movies: seq<Movie?>, browser: Browser, server: (string, string) -> Outcome,
                       initialBatchSize: int := 10)
      returns (ghost attempts: seq<Outcome>)
      modifies this, browser, set m: Movie | m in movies
      ensures |attempts| == |movies|
      ensures forall i :: 0 <= i < |movies| && movies[i] == null ==> attempts[i] == Throws(PropertyOfNothing)
      ensures details == Recorded(old(details), movies, attempts)
      ensures moviesUpdates == old(moviesUpdates) + Successes(attempts)
      ensures forall k :: 0 <= k < |movies| && movies[k] != null ==>
        movies[k].data == LastData(movies, attempts, movies[k], old(movies[k].data))
      ensures browser.posts == old(browser.posts)
      ensures browser.db.Exported? && !Enabled(browser.db) ==>
        && browser.cache == old(browser.cache)
        && browser.fetches == old(browser.fetches) + Requests(movies, initialBatchSize)
        && forall i :: 0 <= i < |movies| && movies[i] != null ==>
             attempts[i] == Checked(server(DataEndpoint(movies[i].imdbID), Authorization(Null)))
      ensures browser.db.Absent? ==>
        browser.fetches == old(browser.fetches) && details == old(details)
        && forall i :: 0 <= i < |movies| ==> attempts[i] == Throws(PropertyOfNothing)
    {
      ghost var datas0 := seq(|movies|, k requires 0 <= k < |movies| reads movies =>
        if movies[k] != null then movies[k].data else Undefined);
      var i := 0;
      attempts := [];
      assert movies[..0] == [];
      while i < |movies|
        invariant Loaded(movies, i, attempts, browser, server, initialBatchSize,
                         old(details), old(moviesUpdates), datas0, old(browser.cache), old(browser.fetches), old(browser.posts))
      {
        var fetched := Advance(movies, i, attempts, browser, server, initialBatchSize,
                               old(details), old(moviesUpdates), datas0, old(browser.cache), old(browser.fetches), old(browser.posts));
        attempts := attempts + [fetched];
        i := i + 1;
      }
      assert movies[..i] == movies;
    }
  }
}
