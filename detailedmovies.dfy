/** `useDetailedMovies` (client/src/hooks/useDetailedMovies.js): the
    `transformer` shows the search results, cuts them into a first batch of
    ten and single-movie batches, and hands each batch to
    `addDetailsToMovies`, which fetches the batch's details through
    `fetchRecur` and assigns them to the movies. The `fetchTransform` the hook
    calls is a parameter here: client/src/utils/fetchTransform.js, which the
    hook imports it from, has no such export. */
module DetailedMovies {
  import opened Js
  import opened MovieObjects

  const InitialFetchLimit := 10
  const SubsequentFetchLimit := 1

  function Min(a: int, b: int): int
  {
    if a <= b then a else b
  }

  /** The batches put back together. */
  function Flatten<T>(batches: seq<seq<T>>): seq<T>
    decreases |batches|
  {
    if |batches| == 0 then [] else Flatten(batches[..|batches| - 1]) + batches[|batches| - 1]
  }

  /** The slices `movies.data.slice(i, i + limit)` that `transformer` hands
      to `addRequest`: `slice(0, 10)`, then one single-movie slice per index
      from 10 on. Together they are the data, in order. */
  method Batches<T>(data: seq<T>) returns (batches: seq<seq<T>>)
    ensures |batches| == 1 + (if |data| > InitialFetchLimit then |data| - InitialFetchLimit else 0)
    ensures batches[0] == data[..Min(InitialFetchLimit, |data|)]
    ensures forall k :: 1 <= k < |batches| ==> batches[k] == [data[InitialFetchLimit - 1 + k]]
    ensures Flatten(batches) == data
  {
    batches := [data[..Min(InitialFetchLimit, |data|)]];
    assert Flatten(batches) == Flatten(batches[..0]) + batches[0];
    var i := InitialFetchLimit;
    while i < |data|
      invariant i >= InitialFetchLimit
      invariant |data| <= InitialFetchLimit ==> i == InitialFetchLimit
      invariant |data| > InitialFetchLimit ==> i <= |data|
      invariant |batches| == i - InitialFetchLimit + 1
      invariant batches[0] == data[..Min(InitialFetchLimit, |data|)]
      invariant forall k :: 1 <= k < |batches| ==> batches[k] == [data[InitialFetchLimit - 1 + k]]
      invariant Flatten(batches) == data[..Min(i, |data|)]
    {
      var next := data[i..i + SubsequentFetchLimit];
      assert (batches + [next])[..|batches|] == batches;
      assert data[..i + 1] == data[..i] + next;
      batches := batches + [next];
      i := i + SubsequentFetchLimit;
    }
    assert data[..Min(i, |data|)] == data;
  }

  /** How a promise ends: resolved with an array, rejected, or never. */
  datatype Settlement = Resolved(values: seq<Value>) | Rejected(reason: Value) | Pending

  /** `fetchRecur(requests)` over requests that have settled with the given
      outcomes. The first request's rejection is not caught; the rejection of
      any later one reaches the `.catch` of the level above, which retries
      from that level after 60 s with the same, already settled, requests,
      forever. */
  function FetchRecur(requests: seq<Outcome>): (s: Settlement)
    ensures s.Resolved? <==> forall i :: 0 <= i < |requests| ==> requests[i].Returns?
    ensures s.Resolved? ==> |s.values| == |requests| && forall i :: 0 <= i < |requests| ==> requests[i] == Returns(s.values[i])
    ensures |requests| > 0 && requests[0].Throws? ==> s == Rejected(requests[0].thrown)
    decreases |requests|
  {
    if |requests| == 0 then Resolved([])
    else
      match requests[0]
      case Throws(e) => Rejected(e)
      case Returns(d) =>
        match FetchRecur(requests[1..])
        case Resolved(rest) => Resolved([d] + rest)
        case Rejected(_) => Pending
        case Pending => Pending
  }

  /** A request after the first that rejects makes `fetchRecur` retry
      forever: it never settles. */
  lemma {:induction false} FetchRecurRetriesForever(requests: seq<Outcome>, k: nat)
    requires 1 <= k < |requests| && requests[k].Throws?
    requires forall i :: 0 <= i < k ==> requests[i].Returns?
    ensures FetchRecur(requests) == Pending
    decreases k
  {
    if k >= 2 {
      FetchRecurRetriesForever(requests[1..], k - 1);
    } else {
      assert FetchRecur(requests[1..]) == Rejected(requests[1].thrown);
    }
  }

  /** The details map after `forEach`: each movie in order sets
      `imdbID ↦ data[index]`. */
  function WithDetails(details: map<string, Value>, movies: seq<Movie>, values: seq<Value>): map<string, Value>
    requires |movies| == |values|
    decreases |movies|
  {
    if |movies| == 0 then details
    else
      var n := |movies| - 1;
      WithDetails(details, movies[..n], values[..n])[DetailsKey(movies[n].imdbID) := values[n]]
  }

  /** A key of no movie keeps its entry. */
  lemma {:induction false} WithDetailsKeepsOthers(details: map<string, Value>, movies: seq<Movie>, values: seq<Value>, key: string)
    requires |movies| == |values|
    requires forall i :: 0 <= i < |movies| ==> DetailsKey(movies[i].imdbID) != key
    ensures key in WithDetails(details, movies, values) <==> key in details
    ensures key in details ==> WithDetails(details, movies, values)[key] == details[key]
    decreases |movies|
  {
    if |movies| > 0 {
      var n := |movies| - 1;
      WithDetailsKeepsOthers(details, movies[..n], values[..n], key);
    }
  }

  /** The last movie with a key decides its entry. */
  lemma {:induction false} WithDetailsLastWins(details: map<string, Value>, movies: seq<Movie>, values: seq<Value>, k: nat)
    requires |movies| == |values| && k < |movies|
    requires forall j :: k < j < |movies| ==> DetailsKey(movies[j].imdbID) != DetailsKey(movies[k].imdbID)
    ensures DetailsKey(movies[k].imdbID) in WithDetails(details, movies, values)
    ensures WithDetails(details, movies, values)[DetailsKey(movies[k].imdbID)] == values[k]
    decreases |movies|
  {
    var n := |movies| - 1;
    if k < n {
      WithDetailsLastWins(details, movies[..n], values[..n], k);
    }
  }

  /** `requests.reduce((chain, task) => chain.then(results =>
      task.then(result => [...results, result])), Promise.resolve([]))`. A
      task is None when it is not a promise (then `task.then` throws), or the
      outcome the promise settles with. */
  function Chain(tasks: seq<Option<Outcome>>): Settlement
    decreases |tasks|
  {
    if |tasks| == 0 then Resolved([])
    else
      var n := |tasks| - 1;
      match Chain(tasks[..n])
      case Resolved(results) =>
        (match tasks[n]
         case None => Rejected(PropertyOfNothing)
         case Some(Returns(v)) => Resolved(results + [v])
         case Some(Throws(e)) => Rejected(e))
      case other => other
  }

  /** As written, `addDetailsToMovies` returns nothing, so every queued task
      is undefined and the chain rejects with a TypeError at its first link. */
  lemma {:induction false} ChainOfUndefinedTasks(tasks: seq<Option<Outcome>>)
    requires |tasks| >= 1 && tasks[0].None?
    ensures Chain(tasks) == Rejected(PropertyOfNothing)
    decreases |tasks|
  {
    if |tasks| > 1 {
      ChainOfUndefinedTasks(tasks[..|tasks| - 1]);
      assert tasks[..|tasks| - 1][0] == tasks[0];
    } else {
      assert tasks[..0] == [];
    }
  }

  /** With tasks that are the batches' promises, the chain resolves to
      their results in order. */
  lemma {:induction false} ChainInOrder(tasks: seq<Option<Outcome>>)
    requires forall i :: 0 <= i < |tasks| ==> tasks[i].Some? && tasks[i].value.Returns?
    ensures Chain(tasks).Resolved?
    ensures |Chain(tasks).values| == |tasks|
    ensures forall i :: 0 <= i < |tasks| ==> Chain(tasks).values[i] == tasks[i].value.value
    decreases |tasks|
  {
    if |tasks| > 0 {
      ChainInOrder(tasks[..|tasks| - 1]);
    }
  }

  predicate AllPresent(ms: seq<Movie?>)
  {
    forall i :: 0 <= i < |ms| ==> ms[i] != null
  }

  /** The movies of a list without null entries. */
  function Present(ms: seq<Movie?>): (r: seq<Movie>)
    requires AllPresent(ms)
    ensures |r| == |ms| && forall i :: 0 <= i < |ms| ==> r[i] == ms[i]
  {
    seq(|ms|, i requires 0 <= i < |ms| => ms[i])
  }

  /** Object k of a list does not occur again after position k. */
  predicate LastOccurrence<T(==)>(ms: seq<T>, k: nat)
    requires k < |ms|
  {
    forall j :: k < j < |ms| ==> ms[j] != ms[k]
  }

  /** The requests `moviesData.map(movie => fetchTransform(...))` starts,
      one per movie in order, each settled with the outcome for its
      endpoint. */
  function DetailRequests(movies: seq<Movie>, fetchTransform: string -> Outcome): (r: seq<Outcome>)
    ensures |r| == |movies| && forall i :: 0 <= i < |movies| ==> r[i] == fetchTransform(DataEndpoint(movies[i].imdbID))
  {
    seq(|movies|, i requires 0 <= i < |movies| => fetchTransform(DataEndpoint(movies[i].imdbID)))
  }

  /** The last position of an object in a batch. */
  function LastIndex(batch: seq<Movie?>, m: Movie): (k: nat)
    requires m in batch
    ensures k < |batch| && batch[k] == m
    ensures forall j :: k < j < |batch| ==> batch[j] != m
    decreases |batch|
  {
    if batch[|batch| - 1] == m then |batch| - 1 else LastIndex(batch[..|batch| - 1], m)
  }

  /** What a batch's `fetchRecur` resolves to, when the batch has no missing
      movie and all its requests succeed; None when nothing is assigned. */
  function BatchValues(batch: seq<Movie?>, fetchTransform: string -> Outcome): (r: Option<seq<Value>>)
    ensures r.Some? <==>
      AllPresent(batch) && FetchRecur(DetailRequests(Present(batch), fetchTransform)).Resolved?
    ensures r.Some? ==> r.value == FetchRecur(DetailRequests(Present(batch), fetchTransform)).values
    ensures r.Some? ==> |r.value| == |batch|
  {
    if !AllPresent(batch) then None
    else match FetchRecur(DetailRequests(Present(batch), fetchTransform))
      case Resolved(values) => Some(values)
      case _ => None
  }

  /** The details map once every batch handed over has run its `forEach`,
      in the order the batches were handed over. */
  function AfterBatches(details: map<string, Value>, batches: seq<seq<Movie?>>, fetchTransform: string -> Outcome): map<string, Value>
    decreases |batches|
  {
    if |batches| == 0 then details
    else
      var n := |batches| - 1;
      var before := AfterBatches(details, batches[..n], fetchTransform);
      match BatchValues(batches[n], fetchTransform)
      case Some(values) => WithDetails(before, Present(batches[n]), values)
      case None => before
  }

  /** The `data` a movie is last given by the batches: the value at its last
      position in the last batch that holds it and resolves. */
  function Assigned(m: Movie, batches: seq<seq<Movie?>>, fetchTransform: string -> Outcome): Option<Value>
    decreases |batches|
  {
    if |batches| == 0 then None
    else
      var n := |batches| - 1;
      var values := BatchValues(batches[n], fetchTransform);
      if values.Some? && m in batches[n] then Some(values.value[LastIndex(batches[n], m)])
      else Assigned(m, batches[..n], fetchTransform)
  }

  /** One more batch: its values extend the details and give its movies
      their data; every other movie keeps what the earlier batches gave. */
  lemma NextBatch(details: map<string, Value>, batches: seq<seq<Movie?>>, b: nat, fetchTransform: string -> Outcome)
    requires b < |batches|
    ensures AfterBatches(details, batches[..b + 1], fetchTransform) ==
      match BatchValues(batches[b], fetchTransform)
      case Some(values) => WithDetails(AfterBatches(details, batches[..b], fetchTransform), Present(batches[b]), values)
      case None => AfterBatches(details, batches[..b], fetchTransform)
    ensures forall m: Movie {:trigger Assigned(m, batches[..b + 1], fetchTransform)} ::
      Assigned(m, batches[..b + 1], fetchTransform) ==
        var values := BatchValues(batches[b], fetchTransform);
        if values.Some? && m in batches[b] then Some(values.value[LastIndex(batches[b], m)])
        else Assigned(m, batches[..b], fetchTransform)
  {
    assert batches[..b + 1][..b] == batches[..b] && batches[..b + 1][b] == batches[b];
  }

  /** A movie's data after the batches: what they assigned, or what it had. */
  function DataOr(given: Option<Value>, before: Value): Value
  {
    if given.Some? then given.value else before
  }

  /** The parsed search response the transformer receives, its `data`
      array turned into movie objects. */
  datatype Search = Search(data: seq<Movie?>, pagination: Value)

  /** The hook's state: the movies shown (`setMovies`), the details map
      (`setDetails`) and the batches handed to `addDetailsToMovies`. */
  class Hook {
    var shown: seq<Movie?>
    var details: map<string, Value>
    var handed: seq<seq<Movie?>>

    constructor ()
      ensures shown == [] && details == map[] && handed == []
    {
      shown := [];
      details := map[];
      handed := [];
    }

    /** `addDetailsToMovies(moviesData)`: `moviesData.map(...)` starts one
        request per movie, in order, until a missing movie throws at
        `movie.imdbID`; once `fetchRecur` resolves, `forEach` gives movie i
        the i-th result and records it in the details. It returns
        undefined; `thrown` is what the call itself throws, `started` the
        number of requests started, `settled` how `fetchRecur` ends. */
    method AddDetailsToMovies(moviesData: seq<Movie?>, fetchTransform: string -> Outcome)
      returns (thrown: Option<Value>, started: nat, settled: Settlement)
      modifies this, set m: Movie | m in moviesData
      ensures handed == old(handed) + [moviesData] && shown == old(shown)
      ensures thrown.None? <==> AllPresent(moviesData)
      ensures thrown.Some? ==>
        && thrown == Some(PropertyOfNothing)
        && started < |moviesData| && moviesData[started] == null
        && forall j :: 0 <= j < started ==> moviesData[j] != null
      ensures thrown.None? ==>
        started == |moviesData| && settled == FetchRecur(DetailRequests(Present(moviesData), fetchTransform))
      ensures thrown.None? && settled.Resolved? ==>
        && |settled.values| == |moviesData|
        && (forall k :: 0 <= k < |moviesData| && LastOccurrence(moviesData, k) ==>
              moviesData[k].data == settled.values[k])
        && details == WithDetails(old(details), Present(moviesData), settled.values)
      ensures thrown.Some? || !settled.Resolved? ==>
        details == old(details) && forall m: Movie :: m in moviesData ==> m.data == old(m.data)
      ensures details == match BatchValues(moviesData, fetchTransform)
        case Some(values) => WithDetails(old(details), Present(moviesData), values)
        case None => old(details)
      ensures forall m: Movie :: m in moviesData ==>
        m.data == match BatchValues(moviesData, fetchTransform)
          case Some(values) => values[LastIndex(moviesData, m)]
          case None => old(m.data)
    {
      handed := handed + [moviesData];
      var i := 0;
      while i < |moviesData|
        invariant 0 <= i <= |moviesData|
        invariant forall j :: 0 <= j < i ==> moviesData[j] != null
      {
        if moviesData[i] == null {
          return Some(PropertyOfNothing), i, Pending;
        }
        i := i + 1;
      }
      started := i;
      var movies := Present(moviesData);
      settled := FetchRecur(DetailRequests(movies, fetchTransform));
      thrown := None;
      if !settled.Resolved? {
        return;
      }
      ForEachAssign(movies, settled.values);
      forall m: Movie | m in moviesData
        ensures m.data == settled.values[LastIndex(moviesData, m)]
      {
        var k := LastIndex(moviesData, m);
        assert LastOccurrence(movies, k);
      }
    }

    /** The `forEach` of `addDetailsToMovies`: movie i gets `data[i]`, and
        the details gain `imdbID ↦ data[i]`, in order. */
    method ForEachAssign(movies: seq<Movie>, data: seq<Value>)
      requires |movies| == |data|
      modifies this, set m: Movie | m in movies
      ensures handed == old(handed) && shown == old(shown)
      ensures details == WithDetails(old(details), movies, data)
      ensures forall k :: 0 <= k < |movies| && LastOccurrence(movies, k) ==> movies[k].data == data[k]
    {
      var index := 0;
      while index < |movies|
        invariant 0 <= index <= |movies|
        invariant handed == old(handed) && shown == old(shown)
        invariant details == WithDetails(old(details), movies[..index], data[..index])
        invariant forall k :: 0 <= k < index && LastOccurrence(movies[..index], k) ==> movies[k].data == data[k]
      {
        movies[index].data := data[index];
        assert movies[..index + 1][..index] == movies[..index];
        assert data[..index + 1][..index] == data[..index];
        details := details[DetailsKey(movies[index].imdbID) := movies[index].data];
        index := index + 1;
      }
      assert movies[..index] == movies && data[..index] == data;
    }

    /** `transformer(movies)`: shows `movies.data`, hands each batch to
        `addDetailsToMovies` in order (the `delay` argument of `addRequest` is
        never used), chains the returned values, and returns its input
        unchanged. A batch with a missing movie ends the transformer with
        that throw. `chain` is how the reduced promise chain ends. The
        details and every movie's data are what the handed batches assign,
        applied in the order they were handed over. */
    method Transformer(movies: Search, fetchTransform: string -> Outcome)
      returns (r: Outcome, result: Search, ghost chain: Settlement)
      modifies this, set m: Movie | m in movies.data
      ensures shown == movies.data
      ensures r.Returns? ==>
        && result == movies && chain == Rejected(PropertyOfNothing)
        && |handed| == |old(handed)| + 1 + (if |movies.data| > InitialFetchLimit then |movies.data| - InitialFetchLimit else 0)
        && handed[|old(handed)|] == movies.data[..Min(InitialFetchLimit, |movies.data|)]
        && Flatten(handed[|old(handed)|..]) == movies.data
      ensures |handed| > |old(handed)| && handed[..|old(handed)|] == old(handed)
      ensures r.Throws? ==> r == Throws(PropertyOfNothing) && !AllPresent(handed[|handed| - 1])
      ensures details == AfterBatches(old(details), handed[|old(handed)|..], fetchTransform)
      ensures forall m: Movie :: m in movies.data ==>
        m.data == DataOr(Assigned(m, handed[|old(handed)|..], fetchTransform), old(m.data))
    {
      shown := movies.data;
      var batches := Batches(movies.data);
      var thrown, count := HandAll(batches, fetchTransform, movies.data);
      if thrown.Some? {
        return Throws(thrown.value), movies, Pending;
      }
      var tasks: seq<Option<Outcome>> := seq(count, _ => None);
      ChainOfUndefinedTasks(tasks);
      chain := Chain(tasks);
      r := Returns(Undefined);
      result := movies;
    }

    /** The loop of `transformer`: each batch goes to `addDetailsToMovies` in
        turn until one throws. `count` batches are handed over without a
        throw; the details and every movie's data are what the handed
        batches assign. */
    method HandAll(batches: seq<seq<Movie?>>, fetchTransform: string -> Outcome, ghost all: seq<Movie?>)
      returns (thrown: Option<Value>, count: nat)
      requires |batches| >= 1 && Flatten(batches) == all
      modifies this, set m: Movie | m in all
      ensures shown == old(shown)
      ensures thrown.None? ==> count == |batches| && handed == old(handed) + batches
      ensures thrown.Some? ==>
        && count < |batches| && handed == old(handed) + batches[..count + 1]
        && thrown == Some(PropertyOfNothing) && !AllPresent(batches[count])
      ensures details == AfterBatches(old(details), handed[|old(handed)|..], fetchTransform)
      ensures forall m: Movie :: m in all ==>
        m.data == DataOr(Assigned(m, handed[|old(handed)|..], fetchTransform), old(m.data))
    {
      count := 0;
      assert batches[..0] == [];
      while count < |batches|
        invariant 0 <= count <= |batches|
        invariant shown == old(shown)
        invariant handed == old(handed) + batches[..count]
        invariant details == AfterBatches(old(details), batches[..count], fetchTransform)
        invariant forall m: Movie :: m in all ==>
          m.data == DataOr(Assigned(m, batches[..count], fetchTransform), old(m.data))
      {
        BatchWithin(batches, count);
        label Before:
        var started, settled;
        thrown, started, settled := AddDetailsToMovies(batches[count], fetchTransform);
        NextBatch(old(details), batches, count, fetchTransform);
        assert batches[..count + 1] == batches[..count] + [batches[count]];
        forall m: Movie | m in all
          ensures m.data == DataOr(Assigned(m, batches[..count + 1], fetchTransform), old(m.data))
        {
          if m !in batches[count] {
            assert m.data == old@Before(m.data);
          }
        }
        assert handed[|old(handed)|..] == batches[..count + 1];
        if thrown.Some? {
          return;
        }
        count := count + 1;
      }
      assert batches[..count] == batches;
      thrown := None;
    }
  }

  /** The objects of one batch are objects of the flattened batches. */
  lemma BatchWithin<T>(batches: seq<seq<T>>, b: nat)
    requires b < |batches|
    ensures forall x :: x in batches[b] ==> x in Flatten(batches)
  {
    forall x | x in batches[b] ensures x in Flatten(batches) {
      FlattenHolds(batches, b, x);
    }
  }

  /** An element of one batch is an element of the flattened batches. */
  lemma {:induction false} FlattenHolds<T>(batches: seq<seq<T>>, b: nat, x: T)
    requires b < |batches| && x in batches[b]
    ensures x in Flatten(batches)
    decreases |batches|
  {
    var n := |batches| - 1;
    if b < n {
      FlattenHolds(batches[..n], b, x);
    }
  }
}
