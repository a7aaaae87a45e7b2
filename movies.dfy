/**
 * The in-memory disc record, whose fields the inspection and remux passes
 * update in place, and the list-level load and dump of the catalog.
 */
module Movies {
  import opened Wrappers
  import opened Json
  import opened Catalog

  class Movie {
    var Path: string
    var Title: string
    var Size: int
    var Processed: bool
    var Playlists: seq<Playlist>

    /** A missing playlist list (`None`) becomes a new empty list. */
    constructor (Path: string, Title: string := "", Size: int := -1, Processed: bool := false,
                 Playlists: Option<seq<Playlist>> := None)
      ensures State() == MovieState(Path, Title, Size, Processed,
                                    if Playlists.Some? then Playlists.value else [])
    {
      this.Path := Path;
      this.Title := Title;
      this.Size := Size;
      this.Processed := Processed;
      this.Playlists := if Playlists.Some? then Playlists.value else [];
    }

    /** The record's current value. */
    function State(): MovieState
      reads this
    {
      MovieState(Path, Title, Size, Processed, Playlists)
    }

    /** The object `serialize` builds; deserializing it restores the record. */
    function Serialize(): (data: Value)
      reads this
      ensures DecodeMovie(data) == Ok(State())
    {
      MovieRoundTrip(State());
      EncodeMovie(State())
    }

    /** `Movie.deserialize`: a new record holding the decoded fields, or the decode failure. */
    static method Deserialize(data: Value) returns (r: Result<Movie, DecodeError>)
      ensures r.Ok? ==> fresh(r.value) && DecodeMovie(data) == Ok(r.value.State())
      ensures r.Err? ==> DecodeMovie(data) == Err(r.error)
    {
      match DecodeMovie(data)
      case Err(e) =>
        r := Err(e);
      case Ok(s) =>
        var m := new Movie(s.Path, s.Title, s.Size, s.Processed, Some(s.Playlists));
        r := Ok(m);
    }
  }

  /** The values of the records of a catalog, in order. */
  function States(ms: seq<Movie>): (r: seq<MovieState>)
    reads set m | m in ms
    ensures |r| == |ms|
    ensures forall k :: 0 <= k < |ms| ==> r[k] == ms[k].State()
  {
    if ms == [] then [] else States(ms[..|ms| - 1]) + [ms[|ms| - 1].State()]
  }

  /** No record object appears twice in the list. */
  predicate Distinct(ms: seq<Movie>) {
    forall i, j :: 0 <= i < j < |ms| ==> ms[i] != ms[j]
  }

  /** The document `dumpMovieList` writes: the serialisations of the records, in order. */
  function DumpMovieList(ms: seq<Movie>): (doc: Value)
    reads set m | m in ms
  {
    EncodeCatalog(States(ms))
  }

  /** Loading the document `dumpMovieList` writes gives the same records back. */
  lemma DumpThenLoad(ms: seq<Movie>)
    ensures DecodeCatalog(DumpMovieList(ms)) == Ok(States(ms))
  {
    CatalogRoundTrip(States(ms));
  }

  /**
   * `loadMovieList`: the entries of the document, then one new record per
   * entry by `Movie.deserialize`, in order; the first entry that fails to
   * decode ends the load with its error.
   */
  method LoadMovieList(doc: Value) returns (r: Result<seq<Movie>, DecodeError>)
    ensures r.Ok? ==> DecodeCatalog(doc) == Ok(States(r.value))
    ensures r.Ok? ==> Distinct(r.value) && forall k :: 0 <= k < |r.value| ==> fresh(r.value[k])
    ensures r.Err? ==> DecodeCatalog(doc) == Err(r.error)
  {
    var entries := Iterated(doc);
    if entries.Err? {
      return Err(entries.error);
    }
    var items := entries.value;
    var ms: seq<Movie> := [];
    var i := 0;
    while i < |items|
      invariant 0 <= i <= |items| && |ms| == i
      invariant forall k :: 0 <= k < i ==> fresh(ms[k]) && DecodeMovie(items[k]) == Ok(ms[k].State())
      invariant Distinct(ms)
    {
      var m := Movie.Deserialize(items[i]);
      if m.Err? {
        DecodeMoviesFirstError(items, i);
        return Err(m.error);
      }
      assert m.value !in ms;
      ms := ms + [m.value];
      i := i + 1;
    }
    assert DecodeMovies(items).value == States(ms);
    r := Ok(ms);
  }
}
