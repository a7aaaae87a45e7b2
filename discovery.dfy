/**
 * Discovery: filtering a directory listing down to disc images, the
 * main-feature selection applied to the titles the inspection tool reports,
 * and the per-disc and per-catalog inspection passes. The directory
 * listing, the file sizes and the inspection tool's answers are inputs.
 */
module Discovery {
  import opened Wrappers
  import opened Json
  import opened Paths
  import opened Catalog
  import opened Movies

  const DefaultMinLength: int := 1200
  const DefaultSizeCutoff: real := 0.5

  // ---------------------------------------------------------------------------
  // Disc images in a directory listing

  /** A path whose final suffix is ".iso" or ".ISO", with no other spelling of the case. */
  predicate IsDiscImage(path: string) {
    var s := Suffix(Name(path));
    s == ".iso" || s == ".ISO"
  }

  /** The entries of a listing that satisfy `keep`, in listing order. */
  function Filter(entries: seq<string>, keep: string -> bool): seq<string>
  {
    if entries == [] then []
    else (if keep(entries[0]) then [entries[0]] else []) + Filter(entries[1..], keep)
  }

  /** An entry is kept exactly when it is in the listing and satisfies `keep`. */
  lemma {:induction false} FilterMembers(entries: seq<string>, keep: string -> bool)
    ensures forall p :: p in Filter(entries, keep) <==> p in entries && keep(p)
  {
    if entries != [] {
      FilterMembers(entries[1..], keep);
      assert entries == [entries[0]] + entries[1..];
    }
  }

  /** Filtering acts entry by entry: filtering a concatenation concatenates the filtered parts. */
  lemma {:induction false} FilterAppend(a: seq<string>, b: seq<string>, keep: string -> bool)
    ensures Filter(a + b, keep) == Filter(a, keep) + Filter(b, keep)
  {
    if a == [] {
      assert a + b == b;
    } else {
      assert (a + b)[0] == a[0];
      assert (a + b)[1..] == a[1..] + b;
      FilterAppend(a[1..], b, keep);
    }
  }

  /** `findMovieFiles` over the entries the recursive glob yields, in their order. */
  function FindMovieFiles(entries: seq<string>): seq<string>
  {
    Filter(entries, IsDiscImage)
  }

  /** A path is in the result exactly when it is in the listing and is a disc image. */
  lemma FindMovieFilesMembers(entries: seq<string>)
    ensures forall p :: p in FindMovieFiles(entries) <==> p in entries && IsDiscImage(p)
  {
    FilterMembers(entries, IsDiscImage);
  }

  /**
   * The kept paths stay in listing order: the result for a listing split in
   * two is the result for the first part followed by that for the second.
   */
  lemma FindMovieFilesAppend(a: seq<string>, b: seq<string>)
    ensures FindMovieFiles(a + b) == FindMovieFiles(a) + FindMovieFiles(b)
  {
    FilterAppend(a, b, IsDiscImage);
  }

  /** A path is kept exactly when its final component is longer than ".iso" and ends in ".iso" or ".ISO". */
  lemma DiscImageByName(path: string)
    ensures IsDiscImage(path) <==>
      var n := Name(path);
      |n| > 4 && (n[|n| - 4..] == ".iso" || n[|n| - 4..] == ".ISO")
  {
    SuffixIs(Name(path), ".iso");
    SuffixIs(Name(path), ".ISO");
  }

  lemma DiscImageOfJoin(dir: string, file: string)
    requires IsComponent(file) && '/' !in file
    ensures IsDiscImage(Join(dir, file)) <==>
      |file| > 4 && (file[|file| - 4..] == ".iso" || file[|file| - 4..] == ".ISO")
  {
    NameOfJoin(dir, file);
    DiscImageByName(Join(dir, file));
  }

  /** The filter on a one-entry listing. */
  lemma FindMovieFilesSingle(x: string)
    ensures FindMovieFiles([x]) == if IsDiscImage(x) then [x] else []
  {
    assert [x][1..] == [];
    assert Filter([x][1..], IsDiscImage) == [];
  }

  /** In any directory, only the two exact spellings of the extension are kept, and a bare ".iso" has no suffix. */
  lemma DiscImageExamples(dir: string)
    ensures IsDiscImage(Join(dir, "a.iso")) && IsDiscImage(Join(dir, "c.ISO"))
    ensures !IsDiscImage(Join(dir, "b.Iso")) && !IsDiscImage(Join(dir, ".iso"))
  {
    DiscImageOfJoin(dir, "a.iso");
    DiscImageOfJoin(dir, "b.Iso");
    DiscImageOfJoin(dir, ".iso");
    DiscImageOfJoin(dir, "c.ISO");
  }

  // ---------------------------------------------------------------------------
  // Main-feature selection

  /** One title as the inspection tool reports it; the chapter count and the name may be missing. */
  datatype TitleInfo = TitleInfo(
    chapterCount: Option<int>,
    size: int,
    name: Option<string>,
    sourceFilename: string,
    information: string,
    fileOutput: string,
    length: string)

  /** What the inspection tool answers for one disc image. */
  datatype Inspection =
    | Titles(titles: seq<TitleInfo>)
    | InspectionFailed  // the tool raised its own error
    | InspectionKilled  // the operator interrupted the tool, which was then killed

  /** A title is a main-feature candidate: it reports a chapter count and fills more than the cutoff share of the disc. */
  predicate Qualifies(t: TitleInfo, discSize: int, cutoff: real) {
    t.chapterCount.Some? && (t.size as real) > (discSize as real) * cutoff
  }

  /** The playlist recorded for the title at position idx of the tool's enumeration. */
  function PlaylistOf(t: TitleInfo, idx: int): (p: Playlist)
    requires t.chapterCount.Some?
  {
    Playlist(TitleNum := idx, SourceFileName := t.sourceFilename, Description := t.information,
             FileOutput := t.fileOutput, Runtime := t.length, Chapters := t.chapterCount.value, Size := t.size)
  }

  /** The playlists selected from an enumeration: one per qualifying title, in enumeration order. */
  function Selected(titles: seq<TitleInfo>, discSize: int, cutoff: real): (r: seq<Playlist>)
    ensures |r| <= |titles|
  {
    if titles == [] then []
    else
      var n := |titles| - 1;
      Selected(titles[..n], discSize, cutoff)
        + (if Qualifies(titles[n], discSize, cutoff) then [PlaylistOf(titles[n], n)] else [])
  }

  /** Extending the enumeration by one title extends the selection by that title if it qualifies. */
  lemma SelectedSnoc(titles: seq<TitleInfo>, idx: nat, discSize: int, cutoff: real)
    requires idx < |titles|
    ensures Selected(titles[..idx + 1], discSize, cutoff)
         == Selected(titles[..idx], discSize, cutoff)
            + (if Qualifies(titles[idx], discSize, cutoff) then [PlaylistOf(titles[idx], idx)] else [])
  {
    assert titles[..idx + 1][..idx] == titles[..idx];
  }

  /** Each playlist of r is the record of a qualifying title of the enumeration, under that title's position. */
  predicate RecordsQualifying(titles: seq<TitleInfo>, r: seq<Playlist>, discSize: int, cutoff: real) {
    forall k :: 0 <= k < |r| ==>
      && 0 <= r[k].TitleNum < |titles|
      && Qualifies(titles[r[k].TitleNum], discSize, cutoff)
      && r[k] == PlaylistOf(titles[r[k].TitleNum], r[k].TitleNum)
  }

  /** The positions recorded in r strictly increase. */
  predicate InEnumerationOrder(r: seq<Playlist>) {
    forall k, l :: 0 <= k < l < |r| ==> r[k].TitleNum < r[l].TitleNum
  }

  /** Every selected playlist is the record of a qualifying title, under that title's position. */
  lemma {:induction false} SelectedSound(titles: seq<TitleInfo>, discSize: int, cutoff: real)
    ensures RecordsQualifying(titles, Selected(titles, discSize, cutoff), discSize, cutoff)
  {
    if titles != [] {
      var n := |titles| - 1;
      var prefix := titles[..n];
      SelectedSound(prefix, discSize, cutoff);
      var p := Selected(prefix, discSize, cutoff);
      var r := Selected(titles, discSize, cutoff);
      forall k | 0 <= k < |r|
        ensures 0 <= r[k].TitleNum < |titles|
        ensures Qualifies(titles[r[k].TitleNum], discSize, cutoff)
        ensures r[k] == PlaylistOf(titles[r[k].TitleNum], r[k].TitleNum)
      {
        if k < |p| {
          assert r[k] == p[k];
          assert prefix[p[k].TitleNum] == titles[p[k].TitleNum];
        } else {
          assert r[k] == PlaylistOf(titles[n], n);
        }
      }
    }
  }

  /** The selected playlists appear in enumeration order, so no title is selected twice. */
  lemma {:induction false} SelectedOrdered(titles: seq<TitleInfo>, discSize: int, cutoff: real)
    ensures InEnumerationOrder(Selected(titles, discSize, cutoff))
  {
    if titles != [] {
      var n := |titles| - 1;
      var prefix := titles[..n];
      SelectedOrdered(prefix, discSize, cutoff);
      SelectedSound(prefix, discSize, cutoff);
      var p := Selected(prefix, discSize, cutoff);
      var r := Selected(titles, discSize, cutoff);
      forall k, l | 0 <= k < l < |r| ensures r[k].TitleNum < r[l].TitleNum {
        assert r[k] == p[k];
        if l < |p| {
          assert r[l] == p[l];
        } else {
          assert r[l] == PlaylistOf(titles[n], n);
        }
      }
    }
  }

  /** Every qualifying title is selected. */
  lemma {:induction false} SelectedComplete(titles: seq<TitleInfo>, discSize: int, cutoff: real, idx: nat)
    requires idx < |titles| && Qualifies(titles[idx], discSize, cutoff)
    ensures exists k :: 0 <= k < |Selected(titles, discSize, cutoff)|
                     && Selected(titles, discSize, cutoff)[k] == PlaylistOf(titles[idx], idx)
  {
    var n := |titles| - 1;
    var prefix := Selected(titles[..n], discSize, cutoff);
    var r := Selected(titles, discSize, cutoff);
    if idx == n {
      assert r[|prefix|] == PlaylistOf(titles[idx], idx);
    } else {
      assert titles[..n][idx] == titles[idx];
      SelectedComplete(titles[..n], discSize, cutoff, idx);
      var k :| 0 <= k < |prefix| && prefix[k] == PlaylistOf(titles[idx], idx);
      assert r[k] == prefix[k];
    }
  }

  /** The position of the last qualifying title, if any. */
  function LastQualifying(titles: seq<TitleInfo>, discSize: int, cutoff: real): (r: Option<nat>)
    ensures r.Some? ==> r.value < |titles| && Qualifies(titles[r.value], discSize, cutoff)
    ensures r.Some? ==> forall k :: r.value < k < |titles| ==> !Qualifies(titles[k], discSize, cutoff)
    ensures r.None? ==> forall k :: 0 <= k < |titles| ==> !Qualifies(titles[k], discSize, cutoff)
  {
    if titles == [] then None
    else
      var n := |titles| - 1;
      if Qualifies(titles[n], discSize, cutoff) then Some(n)
      else
        var prefix := titles[..n];
        assert forall j :: 0 <= j < n ==> prefix[j] == titles[j];
        LastQualifying(prefix, discSize, cutoff)
  }

  /** The disc's display title after a pass: the name of the last qualifying title ("" if it has none), else the old one. */
  function DisplayTitle(titles: seq<TitleInfo>, discSize: int, cutoff: real, current: string): string {
    match LastQualifying(titles, discSize, cutoff)
    case None => current
    case Some(j) => if titles[j].name.Some? then titles[j].name.value else ""
  }

  lemma DisplayTitleSnoc(titles: seq<TitleInfo>, idx: nat, discSize: int, cutoff: real, current: string)
    requires idx < |titles|
    ensures DisplayTitle(titles[..idx + 1], discSize, cutoff, current)
         == if !Qualifies(titles[idx], discSize, cutoff) then DisplayTitle(titles[..idx], discSize, cutoff, current)
            else if titles[idx].name.Some? then titles[idx].name.value else ""
  {
    assert titles[..idx + 1][..idx] == titles[..idx];
  }

  /**
   * The disc record after one inspection pass. Path, size and processed
   * flag never change; the playlists already present stay as a prefix.
   */
  function Inspect(m: MovieState, inspection: Inspection, cutoff: real): (r: MovieState)
    ensures r.Path == m.Path && r.Size == m.Size && r.Processed == m.Processed
    ensures |m.Playlists| <= |r.Playlists| && r.Playlists[..|m.Playlists|] == m.Playlists
    ensures !inspection.Titles? ==> r == m
    ensures inspection.Titles? ==> |r.Playlists| <= |m.Playlists| + |inspection.titles|
  {
    match inspection
    case Titles(titles) =>
      var added := Selected(titles, m.Size, cutoff);
      assert (m.Playlists + added)[..|m.Playlists|] == m.Playlists;
      m.(Title := DisplayTitle(titles, m.Size, cutoff, m.Title), Playlists := m.Playlists + added)
    case _ => m
  }

  /** For a disc of size 100, titles of sizes 60, 40 and 30 and cutoff 0.5, only the first is selected. */
  lemma SelectionExample(t0: TitleInfo, t1: TitleInfo, t2: TitleInfo)
    requires t0.chapterCount.Some? && t1.chapterCount.Some? && t2.chapterCount.Some?
    requires t0.size == 60 && t1.size == 40 && t2.size == 30
    ensures Selected([t0, t1, t2], 100, 0.5) == [PlaylistOf(t0, 0)]
  {
    var ts := [t0, t1, t2];
    assert Qualifies(t0, 100, 0.5) && !Qualifies(t1, 100, 0.5) && !Qualifies(t2, 100, 0.5);
    SelectedSnoc(ts, 0, 100, 0.5);
    SelectedSnoc(ts, 1, 100, 0.5);
    SelectedSnoc(ts, 2, 100, 0.5);
    assert ts[..0] == [] && ts[..3] == ts;
  }

  /**
   * Two discs of size 5000: one with a titled 4000-byte, 12-chapter title,
   * one whose only title is 200 bytes; the first gains that title, the
   * second gains nothing and keeps its empty display title.
   */
  lemma ScenarioExample(feature: TitleInfo, extra: TitleInfo)
    requires feature.chapterCount == Some(12) && feature.size == 4000 && feature.name.Some?
    requires extra.size == 200
    ensures var r := Inspect(MovieState("movie1.iso", Size := 5000), Titles([feature]), DefaultSizeCutoff);
      |r.Playlists| == 1 && r.Playlists[0].Size == 4000 && r.Playlists[0].Chapters == 12
      && r.Playlists[0].TitleNum == 0 && r.Title == feature.name.value
    ensures Inspect(MovieState("movie1_extras.iso", Size := 5000), Titles([extra]), DefaultSizeCutoff)
         == MovieState("movie1_extras.iso", Size := 5000)
  {
    assert [feature][..0] == [] && [extra][..0] == [];
  }

  // ---------------------------------------------------------------------------
  // Inspection passes

  /** `getBasicMovieFileDetails`: a record knowing only its path and the file's size. */
  method BasicMovieFileDetails(file: string, stat: string -> nat) returns (m: Movie)
    ensures fresh(m) && m.State() == MovieState(file, Size := stat(file))
  {
    m := new Movie(file, Size := stat(file));
  }

  /**
   * `getMovieDetails`: asks the tool for the disc's titles and appends the
   * qualifying ones to the record in place; a failed or interrupted
   * inspection leaves the record as it was.
   */
  method GetMovieDetails(movie: Movie, inspect: (string, int) -> Inspection,
                         minLength: int := DefaultMinLength, cutoff: real := DefaultSizeCutoff)
    returns (r: Movie)
    modifies movie
    ensures r == movie
    ensures movie.State() == Inspect(old(movie.State()), inspect(old(movie.Path), minLength), cutoff)
  {
    r := movie;
    var inspection := inspect(movie.Path, minLength);
    if !inspection.Titles? {
      return;
    }
    var titles := inspection.titles;
    ghost var start := movie.State();
    for idx := 0 to |titles|
      invariant movie.Path == start.Path && movie.Size == start.Size && movie.Processed == start.Processed
      invariant movie.Playlists == start.Playlists + Selected(titles[..idx], start.Size, cutoff)
      invariant movie.Title == DisplayTitle(titles[..idx], start.Size, cutoff, start.Title)
    {
      var t := titles[idx];
      SelectedSnoc(titles, idx, start.Size, cutoff);
      DisplayTitleSnoc(titles, idx, start.Size, cutoff, start.Title);
      if t.chapterCount.None? {
        continue;
      }
      if (t.size as real) > (movie.Size as real) * cutoff {
        movie.Title := if t.name.Some? then t.name.value else "";
        movie.Playlists := movie.Playlists + [PlaylistOf(t, idx)];
      }
    }
    assert titles[..|titles|] == titles;
  }

  /**
   * `getMovieListDetails` run as a sequential map: each disc is inspected
   * on a copy of its record (as a worker process receives one), so the
   * input records are not changed and there is one new record per input, in order.
   */
  method GetMovieListDetails(movies: seq<Movie>, inspect: (string, int) -> Inspection)
    returns (result: seq<Movie>)
    ensures |result| == |movies|
    ensures Distinct(result) && forall k :: 0 <= k < |result| ==> fresh(result[k])
    ensures forall k :: 0 <= k < |result| ==>
      result[k].State() == Inspect(movies[k].State(), inspect(movies[k].Path, DefaultMinLength), DefaultSizeCutoff)
  {
    result := [];
    for i := 0 to |movies|
      invariant |result| == i
      invariant Distinct(result) && forall k :: 0 <= k < i ==> fresh(result[k])
      invariant forall k :: 0 <= k < i ==>
        result[k].State() == Inspect(movies[k].State(), inspect(movies[k].Path, DefaultMinLength), DefaultSizeCutoff)
    {
      var m := movies[i];
      var copy := new Movie(m.Path, m.Title, m.Size, m.Processed, Some(m.Playlists));
      var done := GetMovieDetails(copy, inspect);
      result := result + [done];
    }
  }

  /** The disc-image paths found under each root, root by root, in listing order. */
  function Candidates(listings: seq<seq<string>>): (r: seq<string>)
    ensures forall p :: p in r ==> IsDiscImage(p)
    ensures forall p :: p in r ==> exists d :: 0 <= d < |listings| && p in listings[d]
    ensures forall d, p :: 0 <= d < |listings| && p in listings[d] && IsDiscImage(p) ==> p in r
  {
    if listings == [] then []
    else
      var rest := Candidates(listings[1..]);
      assert forall d :: 1 <= d < |listings| ==> listings[d] == listings[1..][d - 1];
      FindMovieFilesMembers(listings[0]);
      FindMovieFiles(listings[0]) + rest
  }

  /** The roots are scanned in order: the images of a list of roots split in two are those of the first part, then those of the second. */
  lemma {:induction false} CandidatesAppend(a: seq<seq<string>>, b: seq<seq<string>>)
    ensures Candidates(a + b) == Candidates(a) + Candidates(b)
  {
    if a == [] {
      assert a + b == b;
    } else {
      assert (a + b)[0] == a[0];
      assert (a + b)[1..] == a[1..] + b;
      CandidatesAppend(a[1..], b);
    }
  }

  /** The images found under a single root are that root's disc images, in listing order. */
  lemma CandidatesOne(listing: seq<string>)
    ensures Candidates([listing]) == FindMovieFiles(listing)
  {
    assert [listing][1..] == [];
  }

  /** The records discovery produces for the given disc images. */
  function Discovered(files: seq<string>, stat: string -> nat, inspect: (string, int) -> Inspection): (r: seq<MovieState>)
    ensures |r| == |files|
  {
    seq(|files|, k requires 0 <= k < |files| =>
      Inspect(MovieState(files[k], Size := stat(files[k])), inspect(files[k], DefaultMinLength), DefaultSizeCutoff))
  }

  /**
   * `getTitles`: scans the listings, inspects every disc image found and
   * returns the catalog document to be written, which loads back as
   * exactly one record per disc image, in scan order.
   */
  method GetTitles(listings: seq<seq<string>>, stat: string -> nat, inspect: (string, int) -> Inspection)
    returns (doc: Value)
    ensures doc == EncodeCatalog(Discovered(Candidates(listings), stat, inspect))
    ensures DecodeCatalog(doc) == Ok(Discovered(Candidates(listings), stat, inspect))
  {
    var files := Candidates(listings);
    var movies: seq<Movie> := [];
    for k := 0 to |files|
      invariant |movies| == k
      invariant forall j :: 0 <= j < k ==> movies[j].State() == MovieState(files[j], Size := stat(files[j]))
    {
      var m := BasicMovieFileDetails(files[k], stat);
      movies := movies + [m];
    }
    var result := GetMovieListDetails(movies, inspect);
    assert States(result) == Discovered(files, stat, inspect);
    doc := DumpMovieList(result);
    DumpThenLoad(result);
  }
}
