# BatchRemux, modelled in Dafny

BatchRemux is a batch tool for a library of Blu-ray disc images (`.iso`).
It works in two passes. The first finds every disc image under some roots,
asks MakeMKV which titles each disc holds, and keeps as *playlists* the
titles that have a chapter count and fill more than half of the disc. It
writes the resulting catalog of disc records as a JSON document. The second
pass walks the catalog, remuxes the first playlist of every disc not yet
marked `Processed` into `dest_root/<name of the image's directory>`, and
marks that disc processed. When the operator interrupts the walk, it writes
the partly processed catalog to a checkpoint document that can be loaded to
continue.

The model has eight modules:

- `Wrappers`: `Option` and `Result`.
- `Json`: the JSON values the catalog document is made of.
- `Catalog`: the `Playlist` and disc records as values (`MovieState`), their
  JSON encoding, and decoding with the defaults `dict.get` supplies. It
  proves the round trips.
- `Movies`: the `Movie` class (the record whose fields the passes update in
  place), `serialize`/`deserialize`, `dumpMovieList` and `loadMovieList`.
- `Paths`: the few `pathlib` operations the tool uses (`name`,
  `parent.name`, `suffix`, `/`), on `/`-separated strings.
- `Discovery`: `findMovieFiles`, the main-feature selection of
  `getMovieDetails` (an imperative loop over a `Movie`, proved against the
  pure `Inspect`), `getMovieListDetails` and `getTitles`.
- `Remux`: the destination and tool call of `remuxMovie`, and the
  specification of the walk: which discs are pending, which tool calls the
  walk makes and how it may end.
- `Walk`: `remuxMovieList` as an imperative loop over the `Movie` objects.
  It is proved to make exactly the specified calls and to change only the
  `Processed` flags. A second walk after a finished one makes no call.

The environment enters as parameters:

- the directory listing under each root, as a sequence of paths;
- the file size, as `stat: string -> nat`;
- MakeMKV's inspection answer per image and minimum length;
- MakeMKV's remux outcome per request (`Completed`, `Killed` after an
  interrupt inside the call, or `ToolFailed`);
- the operator's interrupt, as `Option<nat>`: the step before which it lands.

## Model

| member | source | states |
|---|---|---|
| Catalog.PlaylistRoundTrip | BatchRemux.py:26-49 | deserializing a serialized playlist gives the same playlist back |
| Catalog.PlaylistDefaults | BatchRemux.py:14 | an empty object decodes to the constructor defaults (numbers -1, strings empty) |
| Catalog.DecodePlaylist | BatchRemux.py:38-49 | decoding succeeds exactly when every present key has its field's type; each field is the stored value if present, else its default |
| Catalog.PlaylistsRoundTrip | BatchRemux.py:68 | a list of playlists survives encoding and decoding, in order |
| Catalog.GetInt | BatchRemux.py:42 | `get(key, default)` on an integer field: ok exactly when the key is absent or holds an integer; then the stored value or the default |
| Catalog.GetStr | BatchRemux.py:43 | the same for a string field |
| Catalog.GetBool | BatchRemux.py:83 | the same for a boolean field |
| Catalog.Iterated | BatchRemux.py:76 | iterating the stored playlists: an array gives its items; null, a boolean or a number cannot be iterated |
| Catalog.DecodeMovie | BatchRemux.py:71-85 | decoding succeeds exactly when the scalar keys are well typed and every stored playlist decodes; fields are the stored values or the defaults |
| Catalog.MovieRoundTrip | BatchRemux.py:62-85 | deserializing a serialized disc record gives the same record back, playlists included |
| Catalog.MovieDefaults | BatchRemux.py:52-57 | an empty object decodes to a record with empty path and title, size -1, not processed, no playlists |
| Catalog.DecodeMoviesFirstError | BatchRemux.py:168 | decoding the entries in order stops at the first one that fails, with its error |
| Catalog.MoviesRoundTrip | BatchRemux.py:162 | a list of records survives encoding and decoding, in order |
| Catalog.EncodeCatalog | BatchRemux.py:160-162 | the dumped document is an array holding one serialized record per disc, in catalog order |
| Catalog.CatalogRoundTrip | BatchRemux.py:160-168 | loading a dumped catalog gives the same records in the same order |
| Movies.Movie.constructor | BatchRemux.py:52-57 | the new record holds the arguments; a missing playlist list becomes an empty list |
| Movies.Movie.Serialize | BatchRemux.py:62-69 | the serialized object decodes back to the record's current value |
| Movies.Movie.Deserialize | BatchRemux.py:71-85 | a fresh record holding the decoded value, or the decode error |
| Movies.States | BatchRemux.py:162 | one value per record, in order |
| Movies.DumpThenLoad | BatchRemux.py:160-168 | loading what `dumpMovieList` writes gives the records' current values back |
| Movies.LoadMovieList | BatchRemux.py:165-168 | one fresh, distinct record per document entry, made by `Movie.Deserialize`, holding the decoded values; or the error of the first entry that fails |
| Paths.Split | BatchRemux.py:133-134 | a path splits into at least one segment |
| Paths.SplitSegments | BatchRemux.py:133-134 | no segment holds a separator |
| Paths.SplitNoSlash | BatchRemux.py:133-134 | a string without a separator is a single segment |
| Paths.SplitAtSlash | BatchRemux.py:135 | splitting at a separator splits each side separately |
| Paths.ProperSegments | BatchRemux.py:133-134 | the components kept are non-empty, not ".", and taken from the segments |
| Paths.ProperAppend | BatchRemux.py:135 | keeping components acts segment by segment |
| Paths.ComponentsAreNames | BatchRemux.py:133-134 | every component of a path names something and holds no separator |
| Paths.ParentNameIsComponent | BatchRemux.py:133-134 | the parent directory's name is empty or a single component |
| Paths.JoinComponents | BatchRemux.py:135 | joining a directory with a component adds exactly that component |
| Paths.NameOfJoin | BatchRemux.py:135 | the name of a component joined below a directory is that component |
| Paths.LastDotSpec | BatchRemux.py:88 | the index found is a dot with no dot after it, or -1 when there is no dot |
| Paths.SuffixIs | BatchRemux.py:88 | a name has a given dot suffix exactly when it ends with it and is longer than it |
| Discovery.FilterMembers | BatchRemux.py:88 | an entry is kept exactly when it is listed and satisfies the test |
| Discovery.FilterAppend | BatchRemux.py:88 | the filter keeps listing order: filtering a concatenation concatenates the results |
| Discovery.FindMovieFilesMembers | BatchRemux.py:87-90 | a path is found exactly when it is listed and its suffix is ".iso" or ".ISO" |
| Discovery.FindMovieFilesAppend | BatchRemux.py:87-90 | the found paths are in listing order |
| Discovery.FindMovieFilesSingle | BatchRemux.py:88 | a one-entry listing gives that entry exactly when it is a disc image |
| Discovery.DiscImageByName | BatchRemux.py:88 | a path is a disc image exactly when its name is longer than ".iso" and ends in ".iso" or ".ISO" |
| Discovery.DiscImageOfJoin | BatchRemux.py:88 | a disc image is recognised by the file name joined below any directory |
| Discovery.DiscImageExamples | BatchRemux.py:88 | "a.iso" and "c.ISO" are disc images; "b.Iso" and a bare ".iso" are not |
| Discovery.Selected | BatchRemux.py:112-117 | at most one playlist per title |
| Discovery.SelectedSnoc | BatchRemux.py:112-117 | one more title extends the selection by that title's playlist if and only if it qualifies |
| Discovery.SelectedSound | BatchRemux.py:113-117 | every selected playlist records a title that has a chapter count and a size above the cutoff, under its enumeration index |
| Discovery.SelectedOrdered | BatchRemux.py:112-117 | the selected playlists are in strictly increasing title order |
| Discovery.SelectedComplete | BatchRemux.py:113-117 | every qualifying title is selected |
| Discovery.LastQualifying | BatchRemux.py:115-116 | the last qualifying title, or none when no title qualifies |
| Discovery.DisplayTitleSnoc | BatchRemux.py:116 | each qualifying title overwrites the display title with its name, or "" when it has none |
| Discovery.Inspect | BatchRemux.py:101-118 | path, size and processed flag never change; old playlists stay as a prefix; a failed or interrupted inspection changes nothing |
| Discovery.SelectionExample | BatchRemux.py:115 | with disc size 100 and cutoff 0.5, of titles sized 60, 40 and 30 only the first is selected |
| Discovery.ScenarioExample | BatchRemux.py:112-117 | a 4000-byte, 12-chapter title of a 5000-byte disc is kept under index 0 with its name; a 200-byte title is not |
| Discovery.BasicMovieFileDetails | BatchRemux.py:98-99 | a fresh record knowing only the path and the file's size |
| Discovery.GetMovieDetails | BatchRemux.py:101-118 | the record is updated in place to exactly the pure inspection result, and the same object is returned |
| Discovery.GetMovieListDetails | BatchRemux.py:120-130 | one fresh, distinct record per input, in order, each the inspection result of its input |
| Discovery.Candidates | BatchRemux.py:177 | a path is found exactly when it is a disc image listed under one of the roots |
| Discovery.CandidatesAppend | BatchRemux.py:177 | the roots are scanned in order: the images of two lists of roots are those of the first, then those of the second |
| Discovery.CandidatesOne | BatchRemux.py:177 | the images found under one root are that root's disc images in listing order |
| Discovery.Discovered | BatchRemux.py:177-178 | one record per disc image found |
| Discovery.GetTitles | BatchRemux.py:176-179 | the dumped document is the catalog of the inspected images, and it loads back as exactly those records in scan order |
| Remux.DestinationDirSpec | BatchRemux.py:133-135 | the destination is the output root plus one component, the name of the image's directory (the root itself when there is none) |
| Remux.RemuxMovie | BatchRemux.py:132-146 | no playlist means `Playlists[0]` raises; otherwise the tool is asked for the first playlist's title, from the image, into the destination |
| Remux.WalkedStep | BatchRemux.py:150-154 | one more step of the walk marks exactly the records that are the object of that step |
| Remux.WalkedToEnd | BatchRemux.py:150-154 | after the whole walk every record is processed and otherwise unchanged |
| Remux.Requests | BatchRemux.py:150-153 | at most one tool call per step |
| Remux.RequestsInclude | BatchRemux.py:150-153 | a pending disc among the completed steps had a playlist, and its remux is among the calls made |
| Remux.NothingPendingOnceProcessed | BatchRemux.py:151 | a catalog whose records are all processed needs no tool call |
| Remux.StepOnward | BatchRemux.py:150-154 | a step that does not raise extends the calls by the disc's remux, and only when that disc is pending |
| Remux.ReportedFinished | BatchRemux.py:150-154 | a walk through every step reports all the calls it made and none that failed |
| Remux.ReportedInterrupted | BatchRemux.py:155-156 | a walk interrupted before a step reports the calls of the steps before it |
| Remux.ReportedAborted | BatchRemux.py:140-146 | a failing step with no interrupt due ends the walk: a missing playlist before any call, a tool error after its call, and every earlier call succeeded |
| Remux.CompletedStepsSucceeded | BatchRemux.py:150-154 | a disc is marked processed only after a remux that did not raise: every pending disc among the completed steps had a playlist and its call did not fail |
| Remux.ReportedUnique | BatchRemux.py:148-158 | the report determines the walk: two reports for the same records, interrupt and tool agree on the calls and on how and where the walk ended |
| Remux.IdleWalk | BatchRemux.py:151 | a walk over a fully processed catalog makes no call and does not abort |
| Remux.SecondWalkIdle | BatchRemux.py:148-158 | a walk over the records a finished walk left behind makes no call |
| Walk.WalkStep | BatchRemux.py:150-154 | one iteration: it stops on an interrupt (with the checkpoint document) or a raised error, or it marks the disc processed and records its call |
| Walk.RemuxMovieList | BatchRemux.py:148-158 | the records end marked exactly as far as the walk got and are otherwise unchanged; the calls and the way the walk ended are as specified; an interrupt writes the current catalog |
| Walk.RemuxTwice | BatchRemux.py:148-158 | when the first walk finishes, a second walk over the same objects makes no tool call and finishes |

## Left out

- MakeMKV is not modelled; its answers are the inspection and outcome functions above. This covers the inspection, the remux, `kill`, and the progress callback `mkvProgress` (which does nothing).
- `Pool` / `cpu_count`: `getMovieListDetails` is a sequential map whose workers get copies of the records. Scheduling is not observable in the result.
- File I/O: `open`, `json.dump`, `json.load`, `glob`, `stat`, `exists` and `mkdir` are not modelled. The model gives the JSON value written or read, the directory listing and the sizes. A failed `mkdir` is out of scope.
- JSON text, indentation and floating-point numbers are not modelled. The cutoff is a `real`, not a 64-bit float.
- Catalog.DecodePlaylist: a present key whose value has the wrong JSON type is a decode error. Python would store the value as it is. The typed records cannot hold it.
- Catalog.DecodeMovie: the same holds for the disc record. A present `Path` or `Title` that is not a string, a `Size` that is not an integer, or a `Processed` that is not a boolean is a `WrongType` error. Python would store it as it is (lines 80-83). `Catalog.GetStr`, `Catalog.GetInt` and `Catalog.GetBool` are where this reading of `get` is made.
- `Runtime`, the reported title length (`TitleInfo.length`) and `Path` are strings from the start. So `str(self.Runtime)` and `str(self.Path)` in the serializers are identities. The case of a duration that is not a string, which comes back from the catalog only as its string form, does not arise in the model.
- Command-line parsing, `validate_args`, `main` and logging are not modelled, because they are outside the passes.
- `processMovies` is not modelled. Once `loadMovieList` has succeeded, it calls `remuxMovieList` without `dest_root` and raises a `TypeError` at line 183.
- `print`, `tqdm` and the `__repr__` methods are not modelled. They only produce output.
- `checkDirExists` is left out. It is used only by argument validation.
- The commented-out code at the end of the file is not modelled.
- Walk.RemuxMovieList: an interrupt is modelled only between steps, or inside the tool call, where the source swallows it as `Killed` and still marks the disc processed. An interrupt that lands inside `dumpMovieList` or inside the `finally` print is not modelled. Nor is one that lands inside the `MakeMKV(...)` constructor (line 141): `mkv` is then unbound and `mkv.kill()` at line 144 raises `UnboundLocalError`.
- Paths: only `/`-separated relative or absolute POSIX paths are modelled. There are no drive letters, backslashes or `..` resolution.
- Discovery.GetMovieDetails: a title whose `size` or other required key is missing (a `KeyError` in the source) cannot occur. Every reported title carries those fields.

Where the code differs from its stated intent, the model follows the code:

- A title with a chapter count of 0 is kept. Only a missing count is skipped.
- An inspection that fails with a MakeMKV error, or that is interrupted inside the tool's work, returns the record unchanged. An interrupt that lands inside the `MakeMKV(...)` constructor at line 104 is not modelled: `mkv` is then unbound, so `mkv.kill()` at line 110 raises `UnboundLocalError`.
- A disc whose remux was interrupted inside MakeMKV is still marked processed.
- A disc without playlists ends the whole walk with an uncaught `IndexError`, before any tool call for it.
