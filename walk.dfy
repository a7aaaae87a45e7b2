/**
 * The remux pass as the program runs it: the walk over the in-memory
 * catalog records, remuxing each pending disc and marking its record
 * processed in place.
 */
module Walk {
  import opened Wrappers
  import opened Catalog
  import opened Movies
  import opened Remux

  /**
   * One iteration of the walk, on the disc at position i, given the tool
   * calls `done` of the iterations before. An interrupt due before this
   * step stops the walk with the checkpoint of the catalog. Otherwise a
   * disc already processed is passed over, and a pending one is remuxed
   * and, unless remuxing raised, marked processed; a step that raises stops
   * the walk there.
   */
  method WalkStep(movies: seq<Movie>, i: nat, ghost was: seq<MovieState>, destRoot: string, minLength: int,
                  tool: RemuxRequest -> ToolOutcome, interrupt: Option<nat>, done: seq<RemuxRequest>)
    returns (calls: seq<RemuxRequest>, stop: Option<WalkResult>)
    requires |was| == |movies| && i < |movies|
    requires forall j :: 0 <= j < |movies| ==> movies[j].State() == Walked(was, movies, i, j)
    requires Progress(was, movies, interrupt, tool, destRoot, minLength, i, done)
    modifies movies[i]
    ensures stop.None? ==>
      && (forall j :: 0 <= j < |movies| ==> movies[j].State() == Walked(was, movies, i + 1, j))
      && Progress(was, movies, interrupt, tool, destRoot, minLength, i + 1, calls)
    ensures stop.Some? ==>
      && stop.value.Done(|movies|) == i
      && (forall j :: 0 <= j < |movies| ==> movies[j].State() == Walked(was, movies, i, j))
      && Reported(was, movies, interrupt, tool, destRoot, minLength, calls, stop.value)
      && (stop.value.Interrupted? ==> stop.value.checkpoint == DumpMovieList(movies))
  {
    calls := done;
    if interrupt == Some(i) {
      stop := Some(Interrupted(i, DumpMovieList(movies)));
      ReportedInterrupted(was, movies, interrupt, tool, destRoot, minLength, i, calls, stop.value.checkpoint);
      return;
    }
    var m := movies[i];
    assert m.State() == Walked(was, movies, i, i);
    stop := None;
    if !m.Processed {
      var step := RemuxMovie(m.State(), destRoot, minLength, tool);
      if step.NoPlaylist? {
        stop := Some(Aborted(i, MissingPlaylist));
        ReportedAborted(was, movies, interrupt, tool, destRoot, minLength, i, done, step);
        return;
      }
      calls := done + [step.request];
      if step.outcome == ToolFailed {
        stop := Some(Aborted(i, ToolError));
        ReportedAborted(was, movies, interrupt, tool, destRoot, minLength, i, done, step);
        return;
      }
      StepOnward(was, movies, interrupt, tool, destRoot, minLength, i, done, Some(step));
      m.Processed := true;
    } else {
      StepOnward(was, movies, interrupt, tool, destRoot, minLength, i, done, None);
    }
    forall j | 0 <= j < |movies|
      ensures movies[j].State() == Walked(was, movies, i + 1, j)
    {
      WalkedStep(was, movies, i, j);
    }
  }

  /**
   * `remuxMovieList`: walks the catalog in order, remuxing every disc not
   * yet processed and then marking it processed. Only the processed flag
   * of the records changes. `interrupt`, if present, is the step before
   * which the operator interrupts the walk outside a tool call; the walk
   * then stops and hands back the checkpoint of the catalog as it stands.
   */
  method RemuxMovieList(movies: seq<Movie>, destRoot: string, interrupt: Option<nat>,
                        tool: RemuxRequest -> ToolOutcome, minLength: int := 1200)
    returns (calls: seq<RemuxRequest>, result: WalkResult)
    modifies set m | m in movies
    ensures result.Done(|movies|) <= |movies|
    ensures forall j :: 0 <= j < |movies| ==>
      movies[j].State() == Walked(old(States(movies)), movies, result.Done(|movies|), j)
    ensures Reported(old(States(movies)), movies, interrupt, tool, destRoot, minLength, calls, result)
    ensures result.Interrupted? ==> result.checkpoint == DumpMovieList(movies)
  {
    ghost var was := States(movies);
    calls := [];
    result := Finished;
    var i := 0;
    while i < |movies|
      invariant 0 <= i <= |movies|
      invariant forall j :: 0 <= j < |movies| ==> movies[j].State() == Walked(was, movies, i, j)
      invariant Progress(was, movies, interrupt, tool, destRoot, minLength, i, calls)
    {
      var stop;
      calls, stop := WalkStep(movies, i, was, destRoot, minLength, tool, interrupt, calls);
      if stop.Some? {
        return calls, stop.value;
      }
      i := i + 1;
    }
    ReportedFinished(was, movies, interrupt, tool, destRoot, minLength, calls);
  }

  /**
   * A walk that finishes, followed by a second walk over the same records:
   * the second one finds nothing pending and makes no tool call.
   */
  method RemuxTwice(movies: seq<Movie>, destRoot: string, tool: RemuxRequest -> ToolOutcome, minLength: int)
    returns (first: seq<RemuxRequest>, second: seq<RemuxRequest>, r1: WalkResult, r2: WalkResult)
    modifies set m | m in movies
    ensures r1.Finished? ==> second == [] && r2.Finished?
  {
    first, r1 := RemuxMovieList(movies, destRoot, None, tool, minLength);
    ghost var mid := States(movies);
    second, r2 := RemuxMovieList(movies, destRoot, None, tool, minLength);
    if r1.Finished? {
      SecondWalkIdle(old(States(movies)), movies, mid, None, tool, destRoot, minLength, second, r2);
    }
  }
}
