/** The movie objects the client keeps in its React state: the fields the
    loaders read, and the `data` property they assign in place. */
module MovieObjects {
  import opened Js

  /** One entry of a search response's `data` array, as a mutable object. */
  class Movie {
    const imdbID: Value
    const year: Value
    var data: Value

    constructor (imdbID: Value, year: Value, data: Value)
      ensures this.imdbID == imdbID && this.year == year && this.data == data
    {
      this.imdbID := imdbID;
      this.year := year;
      this.data := data;
    }
  }

  /** `/movies/data/${movie.imdbID}`. */
  function DataEndpoint(imdbID: Value): string
  {
    "/movies/data/" + ToStr(imdbID)
  }

  /** The property key `[movie.imdbID]` of the details map. */
  function DetailsKey(imdbID: Value): string
  {
    ToStr(imdbID)
  }
}
