/** The client's fetch helpers (client/src/utils/fetchTransform.js):
    `getEndpoint` reads the IndexedDB cache, waits, fetches and writes the
    cache; `postEndpoint` posts; the cache key of an endpoint is derived by
    splitting it on "/". The IndexedDB stores are maps, the network is an
    oracle from (endpoint, Authorization header) to the parsed response. */
module FetchTransform {
  import opened Js
  import opened Strings

  /** The cache key of an endpoint: `base` is the text before its last "/",
      `id` the text after it. */
  datatype CacheKey = CacheKey(base: string, id: string)

  function KeyOf(endpoint: string): CacheKey
  {
    var parts := Split(endpoint, '/');
    CacheKey(Join(parts[..|parts| - 1], "/"), parts[|parts| - 1])
  }

  /** Key derivation: the id holds no "/", and base, "/" and id put back
      together give the endpoint; an endpoint without "/" is all id. */
  lemma KeyOfEndpoint(endpoint: string)
    ensures '/' !in KeyOf(endpoint).id
    ensures '/' in endpoint ==> KeyOf(endpoint).base + "/" + KeyOf(endpoint).id == endpoint
    ensures '/' !in endpoint ==> KeyOf(endpoint) == CacheKey("", endpoint)
  {
    var parts := Split(endpoint, '/');
    SplitPieces(endpoint, '/');
    if '/' in endpoint {
      CountPositive(endpoint, '/');
      JoinLast(parts, "/");
      JoinSplit(endpoint, '/');
    } else {
      SplitWithoutSeparator(endpoint, '/');
    }
  }

  /** The other direction: `prefix + "/" + id` with a "/"-free id has base
      `prefix` and id `id`. */
  lemma KeyOfJoined(prefix: string, id: string)
    requires '/' !in id
    ensures KeyOf(prefix + "/" + id) == CacheKey(prefix, id)
  {
    assert prefix + "/" + id == prefix + ['/'] + id;
    SplitConcat(prefix, '/', id);
    SplitWithoutSeparator(id, '/');
    JoinSplit(prefix, '/');
    var parts := Split(prefix, '/') + [id];
    assert parts[..|parts| - 1] == Split(prefix, '/');
  }

  /** The two IndexedDB object stores. */
  datatype StoreName = MoviesStore | PeopleStore

  /** The `switch (base)` of both cache helpers. */
  function StoreFor(base: string): Option<StoreName>
  {
    if base == "/movies/data" then Some(MoviesStore)
    else if base == "/people" then Some(PeopleStore)
    else None
  }

  /** The key path of a store: records are `{imdbID: id, ...movie}` and
      `{id: id, ...person}`. */
  function KeyPath(store: StoreName): string
  {
    match store
    case MoviesStore => "imdbID"
    case PeopleStore => "id"
  }

  /** Routing: a movie-details endpoint goes to the movies store under the
      film's id, a person endpoint to the people store under the person's id. */
  lemma RoutesOfDetailEndpoints(id: string)
    requires '/' !in id
    ensures KeyOf("/movies/data/" + id) == CacheKey("/movies/data", id)
    ensures StoreFor(KeyOf("/movies/data/" + id).base) == Some(MoviesStore)
    ensures KeyOf("/people/" + id) == CacheKey("/people", id)
    ensures StoreFor(KeyOf("/people/" + id).base) == Some(PeopleStore)
  {
    assert "/movies/data/" + id == "/movies/data" + "/" + id;
    KeyOfJoined("/movies/data", id);
    assert "/people/" + id == "/people" + "/" + id;
    KeyOfJoined("/people", id);
  }

  /** A search endpoint `/movies/search?…` has base "/movies" and is never
      routed to a store. */
  lemma SearchIsNotRouted(query: string)
    requires '/' !in query
    ensures KeyOf("/movies/search" + query) == CacheKey("/movies", "search" + query)
    ensures StoreFor(KeyOf("/movies/search" + query).base) == None
  {
    assert "/movies/search" + query == "/movies" + "/" + ("search" + query);
    KeyOfJoined("/movies", "search" + query);
  }

  /** The `IndexedDB` export of client/src/utils/indexed.js: `Absent` when
      the browser has no `indexedDB` (the module then exports undefined),
      otherwise the exported object, whose `IsSupported` property is the given
      value. */
  datatype IndexedDb = Absent | Exported(isSupported: Value)

  /** The object the module exports: it defines no `IsSupported`. */
  const AsExported := Exported(Undefined)

  /** The contents of the two stores. */
  datatype Cache = Cache(movies: map<string, Value>, people: map<string, Value>)

  function Contents(cache: Cache, store: StoreName): map<string, Value>
  {
    match store
    case MoviesStore => cache.movies
    case PeopleStore => cache.people
  }

  function WithContents(cache: Cache, store: StoreName, contents: map<string, Value>): Cache
  {
    match store
    case MoviesStore => cache.(movies := contents)
    case PeopleStore => cache.(people := contents)
  }

  /** The cache can be used only when the export exists and `IsSupported`
      is truthy. */
  predicate Enabled(db: IndexedDb)
  {
    db.Exported? && Truthy(db.isSupported)
  }

  /** `getDataFromIndexedDB(endpoint)`: reading `IsSupported` of an absent
      export throws; without support the answer is null; otherwise the record
      stored under the id in the routed store (undefined when missing), or
      null for an endpoint routed to no store. */
  function Lookup(db: IndexedDb, cache: Cache, endpoint: string): (r: Outcome)
    ensures db.Absent? <==> r.Throws?
    ensures db.Exported? && !Enabled(db) ==> r == Returns(Null)
    ensures Enabled(db) && StoreFor(KeyOf(endpoint).base).None? ==> r == Returns(Null)
  {
    match db
    case Absent => Throws(PropertyOfNothing)
    case Exported(supported) =>
      if !Truthy(supported) then Returns(Null)
      else
        var key := KeyOf(endpoint);
        match StoreFor(key.base)
        case None => Returns(Null)
        case Some(store) =>
          var contents := Contents(cache, store);
          Returns(if key.id in contents then contents[key.id] else Undefined)
  }

  /** The record `{[keyPath]: id, ...data}` that a store's `create` puts;
      the spread copies the own fields of an object and nothing else. */
  function Record(keyPath: string, id: string, data: Value): Value
  {
    Obj(map[keyPath := Str(id)] + (if data.Obj? then data.fields else map[]))
  }

  /** What `addDataToIndexedDB` leaves behind. */
  datatype Written = Written(cache: Cache) | WriteFailed(thrown: Value)

  /** The IndexedDB error of a `put` whose record has no valid key. */
  const BadKey := Error("DataError", "Evaluating the object store's key path did not yield a value.")

  /** `addDataToIndexedDB(endpoint, data)`: nothing without support or for
      an endpoint routed to no store; otherwise the record is put in the routed
      store under its key-path field. */
  function Save(db: IndexedDb, cache: Cache, endpoint: string, data: Value): (w: Written)
    ensures db.Absent? <==> w == WriteFailed(PropertyOfNothing)
    ensures !Enabled(db) && db.Exported? ==> w == Written(cache)
    ensures Enabled(db) && StoreFor(KeyOf(endpoint).base).None? ==> w == Written(cache)
  {
    match db
    case Absent => WriteFailed(PropertyOfNothing)
    case Exported(supported) =>
      if !Truthy(supported) then Written(cache)
      else
        var key := KeyOf(endpoint);
        match StoreFor(key.base)
        case None => Written(cache)
        case Some(store) =>
          var record := Record(KeyPath(store), key.id, data);
          match Field(record, KeyPath(store))
          case Str(k) => Written(WithContents(cache, store, Contents(cache, store)[k := record]))
          case _ => WriteFailed(BadKey)
  }

  /** The `data.error` check that both helpers apply to a parsed response:
      a failed request or a null response throws, a response with a truthy
      `error` field is itself thrown, any other response is returned. */
  function Checked(response: Outcome): (r: Outcome)
    ensures response.Throws? ==> r == response
    ensures response.Returns? && (response.value.Undefined? || response.value.Null?) ==> r == Throws(PropertyOfNothing)
    ensures response.Returns? && !response.value.Undefined? && !response.value.Null? ==>
      r == (if Truthy(Field(response.value, "error")) then Throws(response.value) else response)
  {
    match response
    case Throws(e) => response
    case Returns(data) =>
      match Prop(data, "error")
      case None => Throws(PropertyOfNothing)
      case Some(e) => if Truthy(e) then Throws(data) else response
  }

  /** A network request as the server sees it. */
  datatype Fetch = Fetch(endpoint: string, authorization: string, wait: int)

  /** The header `getEndpoint` sends. */
  function Authorization(token: Value): string
  {
    "Bearer " + ToStr(token)
  }

  /** The whole of one `getEndpoint` call: its outcome, the cache after it
      and the request it sent (none, or one). */
  datatype GetResult = GetResult(outcome: Outcome, cache: Cache, fetched: seq<Fetch>)

  function Get(db: IndexedDb, cache: Cache, endpoint: string, token: Value, wait: int,
               server: (string, string) -> Outcome): (g: GetResult)
    ensures |g.fetched| <= 1
  {
    match Lookup(db, cache, endpoint)
    case Throws(e) => GetResult(Throws(e), cache, [])
    case Returns(hit) =>
      if Truthy(hit) then GetResult(Returns(hit), cache, [])
      else
        var auth := Authorization(token);
        var sent := [Fetch(endpoint, auth, wait)];
        match Checked(server(endpoint, auth))
        case Throws(e) => GetResult(Throws(e), cache, sent)
        case Returns(data) =>
          match Save(db, cache, endpoint, data)
          case WriteFailed(e) => GetResult(Throws(e), cache, sent)
          case Written(c) => GetResult(Returns(data), c, sent)
  }

  /** With the module as exported (no `IsSupported`, or any falsy one) every
      call misses the cache, sends exactly one request after the wait, and
      leaves the stores as they were: the outcome is the checked response. */
  lemma GetWithoutSupport(db: IndexedDb, cache: Cache, endpoint: string, token: Value, wait: int,
                          server: (string, string) -> Outcome)
    requires db.Exported? && !Truthy(db.isSupported)
    ensures Get(db, cache, endpoint, token, wait, server)
      == GetResult(Checked(server(endpoint, Authorization(token))), cache, [Fetch(endpoint, Authorization(token), wait)])
  {
  }

  /** Without `indexedDB` in the browser every call throws a TypeError
      before any request. */
  lemma GetWithoutIndexedDb(cache: Cache, endpoint: string, token: Value, wait: int,
                            server: (string, string) -> Outcome)
    ensures Get(Absent, cache, endpoint, token, wait, server) == GetResult(Throws(PropertyOfNothing), cache, [])
  {
  }

  /** A cache hit (a truthy stored record) is returned at once: no wait, no
      request, no write. */
  lemma GetHit(db: IndexedDb, cache: Cache, endpoint: string, token: Value, wait: int,
               server: (string, string) -> Outcome)
    requires Lookup(db, cache, endpoint).Returns? && Truthy(Lookup(db, cache, endpoint).value)
    ensures Enabled(db)
    ensures Get(db, cache, endpoint, token, wait, server) == GetResult(Lookup(db, cache, endpoint), cache, [])
  {
  }

  /** A response with a truthy `error` is thrown and never written (unless
      a stored record answered first). */
  lemma GetErrorIsNotStored(db: IndexedDb, cache: Cache, endpoint: string, token: Value, wait: int,
                            server: (string, string) -> Outcome)
    requires !(Lookup(db, cache, endpoint).Returns? && Truthy(Lookup(db, cache, endpoint).value))
    requires server(endpoint, Authorization(token)).Returns?
    requires var data := server(endpoint, Authorization(token)).value;
      !data.Undefined? && !data.Null? && Truthy(Field(data, "error"))
    ensures Get(db, cache, endpoint, token, wait, server).outcome.Throws?
    ensures Get(db, cache, endpoint, token, wait, server).cache == cache
    ensures Get(db, cache, endpoint, token, wait, server).fetched != [] ==>
      Get(db, cache, endpoint, token, wait, server).outcome == Throws(server(endpoint, Authorization(token)).value)
  {
  }

  /** An endpoint routed to no store (the search endpoints) is never read
      from or written to the cache: every call sends the request. */
  lemma UnroutedIsNeverCached(db: IndexedDb, cache: Cache, endpoint: string, token: Value, wait: int,
                              server: (string, string) -> Outcome)
    requires db.Exported? && StoreFor(KeyOf(endpoint).base).None?
    ensures Get(db, cache, endpoint, token, wait, server)
      == GetResult(Checked(server(endpoint, Authorization(token))), cache, [Fetch(endpoint, Authorization(token), wait)])
  {
  }

  /** With a working cache, a miss followed by a good response stores the
      record `{[keyPath]: id, ...data}` under the id, and the next call for the
      same endpoint is a hit that returns that record without a request. */
  lemma GetStoresThenHits(db: IndexedDb, cache: Cache, endpoint: string, token: Value, wait: int,
                          server: (string, string) -> Outcome)
    requires Enabled(db) && StoreFor(KeyOf(endpoint).base).Some?
    requires Lookup(db, cache, endpoint) == Returns(Undefined)
    requires Checked(server(endpoint, Authorization(token))).Returns?
    requires var data := server(endpoint, Authorization(token)).value;
      data.Obj? ==> KeyPath(StoreFor(KeyOf(endpoint).base).value) !in data.fields
    ensures var g := Get(db, cache, endpoint, token, wait, server);
      var store := StoreFor(KeyOf(endpoint).base).value;
      var record := Record(KeyPath(store), KeyOf(endpoint).id, server(endpoint, Authorization(token)).value);
      && g.outcome == server(endpoint, Authorization(token))
      && Contents(g.cache, store) == Contents(cache, store)[KeyOf(endpoint).id := record]
      && Get(db, g.cache, endpoint, token, wait, server) == GetResult(Returns(record), g.cache, [])
  {
    var data := server(endpoint, Authorization(token)).value;
    var store := StoreFor(KeyOf(endpoint).base).value;
    var key := KeyOf(endpoint);
    var record := Record(KeyPath(store), key.id, data);
    assert Field(record, KeyPath(store)) == Str(key.id);
    var c := WithContents(cache, store, Contents(cache, store)[key.id := record]);
    assert Save(db, cache, endpoint, data) == Written(c);
    assert Contents(c, store) == Contents(cache, store)[key.id := record];
    assert Lookup(db, c, endpoint) == Returns(record);
  }

  /** A POST as the server sees it. */
  datatype Post = Post(endpoint: string, body: Value)

  /** The browser side of the two helpers: the IndexedDB export, the
      contents of its stores, and the requests sent so far. */
  class Browser {
    const db: IndexedDb
    var cache: Cache
    var fetches: seq<Fetch>
    var posts: seq<Post>

    constructor (db: IndexedDb, cache: Cache)
      ensures this.db == db && this.cache == cache && fetches == [] && posts == []
    {
      this.db := db;
      this.cache := cache;
      fetches := [];
      posts := [];
    }

    /** `getEndpoint(endpoint, token, signal, waitBeforeFetch)`, step by
        step: cache read, hit, wait and fetch, error check, cache write. Every
        error is caught and rethrown unchanged. */
    method GetEndpoint(endpoint: string, token: Value, server: (string, string) -> Outcome, waitBeforeFetch: int := 0)
      returns (r: Outcome)
      modifies this
      ensures var g := Get(db, old(cache), endpoint, token, waitBeforeFetch, server);
        r == g.outcome && cache == g.cache && fetches == old(fetches) + g.fetched
      ensures posts == old(posts)
    {
      var indexed := Lookup(db, cache, endpoint);
      if indexed.Throws? {
        return indexed;
      }
      if Truthy(indexed.value) {
        return indexed;
      }
      var auth := Authorization(token);
      fetches := fetches + [Fetch(endpoint, auth, waitBeforeFetch)];
      var data := Checked(server(endpoint, auth));
      if data.Throws? {
        return data;
      }
      var written := Save(db, cache, endpoint, data.value);
      if written.WriteFailed? {
        return Throws(written.thrown);
      }
      cache := written.cache;
      r := data;
    }

    /** `postEndpoint(endpoint, body)`: one POST, the `data.error` check, and
        no cache access at all. */
    method PostEndpoint(endpoint: string, body: Value, server: (string, Value) -> Outcome) returns (r: Outcome)
      modifies this
      ensures r == Checked(server(endpoint, body))
      ensures posts == old(posts) + [Post(endpoint, body)]
      ensures cache == old(cache) && fetches == old(fetches)
    {
      posts := posts + [Post(endpoint, body)];
      r := Checked(server(endpoint, body));
    }
  }
}
