/** `useMovieDetails` (client/src/hooks/useMovieDetails.js): each run of the
    effect hands the loader the first movie that has no details yet, with a
    first batch of size 0; a successful load re-renders the movies, which
    re-runs the effect on the next movie. */
module MovieDetailsHook {
  import opened Js
  import opened FetchTransform
  import opened MovieObjects
  import opened DetailsLoader

  /** The index that `movies.filter((movie) => !movie.data)[0]` picks: the
      first position whose data is falsy, or the length when there is none. */
  function FirstWithoutData(datas: seq<Value>): (k: nat)
    ensures k <= |datas|
    ensures k < |datas| ==> !Truthy(datas[k])
    ensures forall j :: 0 <= j < k ==> Truthy(datas[j])
  {
    if |datas| == 0 then 0
    else if !Truthy(datas[0]) then 0
    else 1 + FirstWithoutData(datas[1..])
  }

  /** Giving the picked movie truthy data moves the pick strictly forward. */
  lemma FirstWithoutDataAdvances(datas: seq<Value>, d: Value)
    requires FirstWithoutData(datas) < |datas| && Truthy(d)
    ensures FirstWithoutData(datas[FirstWithoutData(datas) := d]) > FirstWithoutData(datas)
  {
    var k := FirstWithoutData(datas);
    var after := datas[k := d];
    assert forall j :: 0 <= j <= k ==> Truthy(after[j]);
  }

  /** The `data` of each movie object. */
  function DataOf(movies: seq<Movie>): (datas: seq<Value>)
    reads set m | m in movies
    ensures |datas| == |movies| && forall i :: 0 <= i < |movies| ==> datas[i] == movies[i].data
  {
    seq(|movies|, i requires 0 <= i < |movies| reads movies => movies[i].data)
  }

  /** One run of the effect. `movies` is None when the state is undefined.
      `handed` is the list given to `loadDetails`; `rerun` says whether the
      loader called `setMovies`, which changes the effect's dependency. */
  method Effect(movies: Option<seq<Movie>>, loader: MovieDetailsLoader, browser: Browser,
                server: (string, string) -> Outcome)
    returns (handed: seq<Movie?>, rerun: bool)
    modifies loader, browser, set m: Movie | movies.Some? && m in movies.value
    ensures movies.None? || |movies.value| == 0 ==>
      handed == [] && !rerun && loader.details == old(loader.details) && browser.fetches == old(browser.fetches)
    ensures movies.Some? && |movies.value| > 0 ==>
      var k := FirstWithoutData(old(DataOf(movies.value)));
      && handed == [if k < |movies.value| then movies.value[k] else null]
      && (k == |movies.value| ==> !rerun && loader.details == old(loader.details))
      && (k < |movies.value| && browser.db.Exported? && !Enabled(browser.db) ==>
            browser.fetches == old(browser.fetches)
              + [Fetch(DataEndpoint(movies.value[k].imdbID), Authorization(Null), DelayBeforeEachFetch)])
      && (k < |movies.value| && rerun && Truthy(movies.value[k].data) ==> FirstWithoutData(DataOf(movies.value)) > k)
    ensures rerun <==> loader.moviesUpdates == old(loader.moviesUpdates) + 1
    ensures !rerun ==> loader.moviesUpdates == old(loader.moviesUpdates)
  {
    if movies.None? {
      return [], false;
    }
    if |movies.value| == 0 {
      return [], false;
    }
    var ms := movies.value;
    var k := FirstWithoutData(DataOf(ms));
    var first: Movie? := if k < |ms| then ms[k] else null;
    handed := [first];
    ghost var before := DataOf(ms);
    var updates := loader.moviesUpdates;
    ghost var attempts := loader.LoadDetails(handed, browser, server, 0);
    assert handed[..0] == [] && attempts[..0] == [];
    rerun := loader.moviesUpdates > updates;
    if k < |ms| {
      assert Requests(handed, 0) == [Fetch(DataEndpoint(ms[k].imdbID), Authorization(Null), Delay(0, 0))];
      if rerun && Truthy(ms[k].data) {
        forall j | 0 <= j < k ensures Truthy(DataOf(ms)[j]) {
          assert Truthy(before[j]);
          assert ms[j] != ms[k];
        }
        assert Truthy(DataOf(ms)[k]);
      }
    }
  }
}
