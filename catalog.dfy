/**
 * The catalog records (a disc's candidate titles, `Playlist`, and the disc
 * itself, `Movie`) as values, and their encoding as JSON objects: what
 * `serialize` builds and what `deserialize` accepts, with the defaults it
 * falls back to for missing keys, lifted to the whole catalog list.
 */
module Catalog {
  import opened Wrappers
  import opened Json

  /** One candidate title of a disc; the defaults are those of the record's constructor. */
  datatype Playlist = Playlist(
    TitleNum: int := -1,
    SourceFileName: string := "",
    Description: string := "",
    FileOutput: string := "",
    Runtime: string := "",
    Chapters: int := -1,
    Size: int := -1)

  /** The value of a disc record: what is written to the catalog document for it. */
  datatype MovieState = MovieState(
    Path: string,
    Title: string := "",
    Size: int := -1,
    Processed: bool := false,
    Playlists: seq<Playlist> := [])

  datatype DecodeError =
    | NotAnObject            // `.get` applied to something that is not a dict
    | NotIterable            // iteration over null, a boolean or a number
    | WrongType(key: string) // a present key whose value has another JSON type than the field

  // ---------------------------------------------------------------------------
  // Field access with a default: `data.get(key, default)`

  predicate IntOrAbsent(fields: map<string, Value>, key: string) {
    key in fields ==> fields[key].Int?
  }

  predicate StrOrAbsent(fields: map<string, Value>, key: string) {
    key in fields ==> fields[key].Str?
  }

  predicate BoolOrAbsent(fields: map<string, Value>, key: string) {
    key in fields ==> fields[key].Bool?
  }

  /** x is what `fields.get(key, default)` gives for an integer field. */
  predicate IsIntOr(fields: map<string, Value>, key: string, default: int, x: int) {
    if key in fields then fields[key] == Int(x) else x == default
  }

  /** x is what `fields.get(key, default)` gives for a string field. */
  predicate IsStrOr(fields: map<string, Value>, key: string, default: string, x: string) {
    if key in fields then fields[key] == Str(x) else x == default
  }

  /** x is what `fields.get(key, default)` gives for a boolean field. */
  predicate IsBoolOr(fields: map<string, Value>, key: string, default: bool, x: bool) {
    if key in fields then fields[key] == Bool(x) else x == default
  }

  function GetInt(fields: map<string, Value>, key: string, default: int): (r: Result<int, DecodeError>)
    ensures r.Ok? <==> IntOrAbsent(fields, key)
    ensures r.Ok? ==> IsIntOr(fields, key, default, r.value)
  {
    if key !in fields then Ok(default)
    else match fields[key]
      case Int(i) => Ok(i)
      case _ => Err(WrongType(key))
  }

  function GetStr(fields: map<string, Value>, key: string, default: string): (r: Result<string, DecodeError>)
    ensures r.Ok? <==> StrOrAbsent(fields, key)
    ensures r.Ok? ==> IsStrOr(fields, key, default, r.value)
  {
    if key !in fields then Ok(default)
    else match fields[key]
      case Str(s) => Ok(s)
      case _ => Err(WrongType(key))
  }

  function GetBool(fields: map<string, Value>, key: string, default: bool): (r: Result<bool, DecodeError>)
    ensures r.Ok? <==> BoolOrAbsent(fields, key)
    ensures r.Ok? ==> IsBoolOr(fields, key, default, r.value)
  {
    if key !in fields then Ok(default)
    else match fields[key]
      case Bool(b) => Ok(b)
      case _ => Err(WrongType(key))
  }

  /**
   * The elements a Python loop sees when it iterates a decoded JSON value:
   * the items of an array; nothing for an empty object or an empty string.
   * The elements of a non-empty object (its keys) or of a non-empty string
   * (its characters) are strings, on which the record decoders fail, so
   * those are reported as that failure here.
   */
  function Iterated(v: Value): (r: Result<seq<Value>, DecodeError>)
    ensures v.Array? ==> r == Ok(v.items)
    ensures r.Ok? ==> (v.Array? && r.value == v.items) || r.value == []
    ensures (v.Null? || v.Bool? || v.Int?) ==> r == Err(NotIterable)
  {
    match v
    case Array(items) => Ok(items)
    case Object(fields) => if fields == map[] then Ok([]) else Err(NotAnObject)
    case Str(s) => if s == "" then Ok([]) else Err(NotAnObject)
    case _ => Err(NotIterable)
  }

  // ---------------------------------------------------------------------------
  // Playlist

  function EncodePlaylist(p: Playlist): Value {
    Object(map[
      "TitleNum" := Int(p.TitleNum),
      "SourceFileName" := Str(p.SourceFileName),
      "Description" := Str(p.Description),
      "FileOutput" := Str(p.FileOutput),
      "Runtime" := Str(p.Runtime),
      "Chapters" := Int(p.Chapters),
      "Size" := Int(p.Size)])
  }

  /** The keys of an object that decode as a playlist: each present key holds its field's type. */
  predicate PlaylistShaped(fields: map<string, Value>) {
    && IntOrAbsent(fields, "TitleNum")
    && StrOrAbsent(fields, "SourceFileName")
    && StrOrAbsent(fields, "Description")
    && StrOrAbsent(fields, "FileOutput")
    && StrOrAbsent(fields, "Runtime")
    && IntOrAbsent(fields, "Chapters")
    && IntOrAbsent(fields, "Size")
  }

  function DecodePlaylist(data: Value): (r: Result<Playlist, DecodeError>)
    ensures r.Ok? <==> data.Object? && PlaylistShaped(data.fields)
    ensures r.Ok? ==>
      var f := data.fields;
      && IsIntOr(f, "TitleNum", -1, r.value.TitleNum)
      && IsStrOr(f, "SourceFileName", "", r.value.SourceFileName)
      && IsStrOr(f, "Description", "", r.value.Description)
      && IsStrOr(f, "FileOutput", "", r.value.FileOutput)
      && IsStrOr(f, "Runtime", "", r.value.Runtime)
      && IsIntOr(f, "Chapters", -1, r.value.Chapters)
      && IsIntOr(f, "Size", -1, r.value.Size)
  {
    if !data.Object? then Err(NotAnObject)
    else
      var f := data.fields;
      var titleNum :- GetInt(f, "TitleNum", -1);
      var sourceFileName :- GetStr(f, "SourceFileName", "");
      var description :- GetStr(f, "Description", "");
      var fileOutput :- GetStr(f, "FileOutput", "");
      var runtime :- GetStr(f, "Runtime", "");
      var chapters :- GetInt(f, "Chapters", -1);
      var size :- GetInt(f, "Size", -1);
      Ok(Playlist(titleNum, sourceFileName, description, fileOutput, runtime, chapters, size))
  }

  function EncodePlaylists(ps: seq<Playlist>): (r: seq<Value>)
    ensures |r| == |ps|
    ensures forall k :: 0 <= k < |ps| ==> r[k] == EncodePlaylist(ps[k])
  {
    if ps == [] then [] else [EncodePlaylist(ps[0])] + EncodePlaylists(ps[1..])
  }

  function DecodePlaylists(items: seq<Value>): (r: Result<seq<Playlist>, DecodeError>)
    ensures r.Ok? ==> |r.value| == |items|
    ensures r.Ok? <==> forall k :: 0 <= k < |items| ==> DecodePlaylist(items[k]).Ok?
    ensures r.Ok? ==> forall k :: 0 <= k < |items| ==> DecodePlaylist(items[k]) == Ok(r.value[k])
  {
    if items == [] then Ok([])
    else
      var p :- DecodePlaylist(items[0]);
      var rest :- DecodePlaylists(items[1..]);
      Ok([p] + rest)
  }

  /** Serializing a playlist and deserializing the result gives the same playlist back. */
  lemma PlaylistRoundTrip(p: Playlist)
    ensures DecodePlaylist(EncodePlaylist(p)) == Ok(p)
  {
  }

  /** An empty object deserializes to a playlist made with every default. */
  lemma PlaylistDefaults()
    ensures DecodePlaylist(Object(map[])) == Ok(Playlist())
    ensures Playlist().TitleNum == -1 && Playlist().Chapters == -1 && Playlist().Size == -1
    ensures Playlist().SourceFileName == "" && Playlist().Runtime == ""
  {
  }

  lemma {:induction false} PlaylistsRoundTrip(ps: seq<Playlist>)
    ensures DecodePlaylists(EncodePlaylists(ps)) == Ok(ps)
  {
    if ps != [] {
      PlaylistRoundTrip(ps[0]);
      PlaylistsRoundTrip(ps[1..]);
      assert EncodePlaylists(ps)[1..] == EncodePlaylists(ps[1..]);
      assert [ps[0]] + ps[1..] == ps;
    }
  }

  // ---------------------------------------------------------------------------
  // Movie

  function EncodeMovie(m: MovieState): Value {
    Object(map[
      "Path" := Str(m.Path),
      "Title" := Str(m.Title),
      "Size" := Int(m.Size),
      "Processed" := Bool(m.Processed),
      "Playlists" := Array(EncodePlaylists(m.Playlists))])
  }

  predicate MovieShaped(fields: map<string, Value>) {
    && StrOrAbsent(fields, "Path")
    && StrOrAbsent(fields, "Title")
    && IntOrAbsent(fields, "Size")
    && BoolOrAbsent(fields, "Processed")
  }

  /** The playlist records stored under "Playlists", as `data.get('Playlists', [])` iterates them. */
  function PlaylistItems(fields: map<string, Value>): Result<seq<Value>, DecodeError> {
    if "Playlists" in fields then Iterated(fields["Playlists"]) else Ok([])
  }

  function DecodeMovie(data: Value): (r: Result<MovieState, DecodeError>)
    ensures r.Ok? <==>
      && data.Object?
      && PlaylistItems(data.fields).Ok?
      && DecodePlaylists(PlaylistItems(data.fields).value).Ok?
      && MovieShaped(data.fields)
    ensures r.Ok? ==>
      var f := data.fields;
      && IsStrOr(f, "Path", "", r.value.Path)
      && IsStrOr(f, "Title", "", r.value.Title)
      && IsIntOr(f, "Size", -1, r.value.Size)
      && IsBoolOr(f, "Processed", false, r.value.Processed)
      && Ok(r.value.Playlists) == DecodePlaylists(PlaylistItems(f).value)
  {
    if !data.Object? then Err(NotAnObject)
    else
      var f := data.fields;
      var items :- PlaylistItems(f);
      var playlists :- DecodePlaylists(items);
      var path :- GetStr(f, "Path", "");
      var title :- GetStr(f, "Title", "");
      var size :- GetInt(f, "Size", -1);
      var processed :- GetBool(f, "Processed", false);
      Ok(MovieState(path, title, size, processed, playlists))
  }

  /** Serializing a disc record and deserializing the result gives the same record back. */
  lemma MovieRoundTrip(m: MovieState)
    ensures DecodeMovie(EncodeMovie(m)) == Ok(m)
  {
    var f := EncodeMovie(m).fields;
    PlaylistsRoundTrip(m.Playlists);
    assert PlaylistItems(f) == Ok(EncodePlaylists(m.Playlists));
    assert GetStr(f, "Path", "") == Ok(m.Path) && GetStr(f, "Title", "") == Ok(m.Title);
    assert GetInt(f, "Size", -1) == Ok(m.Size) && GetBool(f, "Processed", false) == Ok(m.Processed);
  }

  /** An empty object deserializes to the defaults: no path, no title, size -1, not processed, no playlists. */
  lemma MovieDefaults()
    ensures DecodeMovie(Object(map[])) == Ok(MovieState(""))
    ensures MovieState("").Title == "" && MovieState("").Size == -1
    ensures !MovieState("").Processed && MovieState("").Playlists == []
  {
  }

  // ---------------------------------------------------------------------------
  // The catalog: a list of disc records

  function EncodeMovies(ms: seq<MovieState>): (r: seq<Value>)
    ensures |r| == |ms|
    ensures forall k :: 0 <= k < |ms| ==> r[k] == EncodeMovie(ms[k])
  {
    if ms == [] then [] else [EncodeMovie(ms[0])] + EncodeMovies(ms[1..])
  }

  function DecodeMovies(items: seq<Value>): (r: Result<seq<MovieState>, DecodeError>)
    ensures r.Ok? ==> |r.value| == |items|
    ensures r.Ok? <==> forall k :: 0 <= k < |items| ==> DecodeMovie(items[k]).Ok?
    ensures r.Ok? ==> forall k :: 0 <= k < |items| ==> DecodeMovie(items[k]) == Ok(r.value[k])
  {
    if items == [] then Ok([])
    else
      var m :- DecodeMovie(items[0]);
      var rest :- DecodeMovies(items[1..]);
      Ok([m] + rest)
  }

  /** Decoding a list of records stops at the first entry that fails to decode, with that entry's error. */
  lemma {:induction false} DecodeMoviesFirstError(items: seq<Value>, i: nat)
    requires i < |items| && DecodeMovie(items[i]).Err?
    requires forall k :: 0 <= k < i ==> DecodeMovie(items[k]).Ok?
    ensures DecodeMovies(items) == Err(DecodeMovie(items[i]).error)
  {
    if i > 0 {
      assert items[1..][i - 1] == items[i];
      assert forall k :: 0 <= k < i - 1 ==> items[1..][k] == items[k + 1];
      DecodeMoviesFirstError(items[1..], i - 1);
    }
  }

  /** The document `dumpMovieList` writes: an array with one object per disc, in catalog order. */
  function EncodeCatalog(ms: seq<MovieState>): (doc: Value)
    ensures doc.Array? && |doc.items| == |ms|
    ensures forall k :: 0 <= k < |ms| ==> doc.items[k] == EncodeMovie(ms[k])
  {
    Array(EncodeMovies(ms))
  }

  /** The records `loadMovieList` reads back from a document. */
  function DecodeCatalog(doc: Value): (r: Result<seq<MovieState>, DecodeError>)
    ensures doc.Array? ==> (r.Ok? ==> |r.value| == |doc.items|)
  {
    var items :- Iterated(doc);
    DecodeMovies(items)
  }

  lemma {:induction false} MoviesRoundTrip(ms: seq<MovieState>)
    ensures DecodeMovies(EncodeMovies(ms)) == Ok(ms)
  {
    if ms != [] {
      MovieRoundTrip(ms[0]);
      MoviesRoundTrip(ms[1..]);
      assert EncodeMovies(ms)[1..] == EncodeMovies(ms[1..]);
      assert [ms[0]] + ms[1..] == ms;
    }
  }

  /** Loading a dumped catalog gives the same discs, in the same order, each with its playlists in order. */
  lemma CatalogRoundTrip(ms: seq<MovieState>)
    ensures DecodeCatalog(EncodeCatalog(ms)) == Ok(ms)
  {
    MoviesRoundTrip(ms);
  }
}
