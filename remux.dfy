/**
 * The remux pass: the destination of one disc's remux, and the sequential
 * walk over the catalog that remuxes each pending disc and marks it
 * processed. The remux tool is an input: it is told what to write where
 * and answers how the run ended.
 */
module Remux {
  import opened Wrappers
  import opened Json
  import opened Paths
  import opened Catalog
  import opened Movies

  /** One call of the remux tool: which image, which title, into which directory. */
  datatype RemuxRequest = RemuxRequest(source: string, minLength: int, titleNum: int, dest: string)

  /** How a call of the tool ends. */
  datatype ToolOutcome =
    | Completed
    | Killed     // interrupted by the operator inside the call; the process is killed and the interrupt swallowed
    | ToolFailed // the tool raised its own error, which nothing catches

  /** What one `remuxMovie` call does. */
  datatype RemuxStep =
    | NoPlaylist                                        // `Playlists[0]` raises: the record has no playlist
    | Ran(request: RemuxRequest, outcome: ToolOutcome)  // the tool was called

  datatype AbortReason = MissingPlaylist | ToolError

  /** How the walk ends. */
  datatype WalkResult =
    | Finished
    | Interrupted(at: nat, checkpoint: Value)  // an interrupt before step `at`; the checkpoint document written
    | Aborted(at: nat, reason: AbortReason)    // an uncaught error in step `at`
  {
    /** The number of steps completed. */
    function Done(len: nat): nat {
      match this
      case Finished => len
      case Interrupted(at, _) => at
      case Aborted(at, _) => at
    }
  }

  /** The destination directory of a disc: the output root joined with the name of the directory holding the image. */
  function DestinationDir(destRoot: string, moviePath: string): string
  {
    Join(destRoot, ParentName(moviePath))
  }

  /** A disc is remuxed into a directory one level below the output root, named after the image's directory. */
  lemma DestinationDirSpec(destRoot: string, moviePath: string)
    ensures ParentName(moviePath) == "" ==> DestinationDir(destRoot, moviePath) == destRoot
    ensures ParentName(moviePath) != "" ==>
      Components(DestinationDir(destRoot, moviePath)) == Components(destRoot) + [ParentName(moviePath)]
  {
    ParentNameIsComponent(moviePath);
    if ParentName(moviePath) != "" {
      JoinComponents(destRoot, ParentName(moviePath));
    }
  }

  /** The tool call that remuxes the first playlist of a disc into its destination directory. */
  function RequestFor(m: MovieState, destRoot: string, minLength: int): RemuxRequest
    requires m.Playlists != []
  {
    RemuxRequest(m.Path, minLength, m.Playlists[0].TitleNum, DestinationDir(destRoot, m.Path))
  }

  /** `remuxMovie`: remux the disc's first playlist into its destination directory. */
  function RemuxMovie(m: MovieState, destRoot: string, minLength: int, tool: RemuxRequest -> ToolOutcome): (step: RemuxStep)
    ensures step.NoPlaylist? <==> m.Playlists == []
    ensures step.Ran? ==>
      && step.request.source == m.Path
      && step.request.titleNum == m.Playlists[0].TitleNum
      && step.request.dest == DestinationDir(destRoot, m.Path)
      && step.request.minLength == minLength
      && step.outcome == tool(step.request)
  {
    if m.Playlists == [] then NoPlaylist
    else Ran(RequestFor(m, destRoot, minLength), tool(RequestFor(m, destRoot, minLength)))
  }

  /**
   * The state of disc j after the first n steps of the walk: as it was when
   * the walk began, processed if it was already or if its record object was
   * visited in one of those steps.
   */
  function Walked(was: seq<MovieState>, ms: seq<Movie>, n: nat, j: nat): MovieState
    requires |was| == |ms| && n <= |ms| && j < |ms|
  {
    was[j].(Processed := was[j].Processed || ms[j] in ms[..n])
  }

  /** Step n of the walk changes exactly the records that are the object visited. */
  lemma WalkedStep(was: seq<MovieState>, ms: seq<Movie>, n: nat, j: nat)
    requires |was| == |ms| && n < |ms| && j < |ms|
    ensures Walked(was, ms, n + 1, j)
         == if ms[j] == ms[n] then was[j].(Processed := true) else Walked(was, ms, n, j)
  {
    assert ms[..n + 1] == ms[..n] + [ms[n]];
  }

  /** After the whole walk every disc is processed, and nothing but the flag has changed. */
  lemma WalkedToEnd(was: seq<MovieState>, ms: seq<Movie>, j: nat)
    requires |was| == |ms| && j < |ms|
    ensures Walked(was, ms, |ms|, j) == was[j].(Processed := true)
  {
    assert ms[..|ms|][j] == ms[j];
  }

  /**
   * The disc at position j is remuxed by the walk: it was not processed when
   * the walk began, and the same record object does not occur earlier in
   * the list (an earlier visit would have processed it).
   */
  predicate Pending(was: seq<MovieState>, ms: seq<Movie>, j: nat)
    requires |was| == |ms| && j < |ms|
  {
    !Walked(was, ms, j, j).Processed
  }

  /** Every disc pending among the first n has a playlist to remux. */
  predicate Remuxable(was: seq<MovieState>, ms: seq<Movie>, n: nat)
    requires |was| == |ms| && n <= |ms|
  {
    n == 0 || (Remuxable(was, ms, n - 1) && (Pending(was, ms, n - 1) ==> was[n - 1].Playlists != []))
  }

  /** The tool calls that the first n steps of the walk make, in order. */
  function Requests(was: seq<MovieState>, ms: seq<Movie>, n: nat, destRoot: string, minLength: int): (r: seq<RemuxRequest>)
    requires |was| == |ms| && n <= |ms| && Remuxable(was, ms, n)
    ensures |r| <= n
  {
    if n == 0 then []
    else
      Requests(was, ms, n - 1, destRoot, minLength)
        + if Pending(was, ms, n - 1)
          then [RequestFor(was[n - 1], destRoot, minLength)]
          else []
  }

  /** A pending disc among the first n steps has a playlist, and its remux is among those steps' calls. */
  lemma {:induction false} RequestsInclude(was: seq<MovieState>, ms: seq<Movie>, n: nat, destRoot: string,
                                           minLength: int, j: nat)
    requires |was| == |ms| && j < n <= |ms| && Remuxable(was, ms, n) && Pending(was, ms, j)
    ensures was[j].Playlists != []
    ensures RequestFor(was[j], destRoot, minLength) in Requests(was, ms, n, destRoot, minLength)
  {
    if j < n - 1 {
      RequestsInclude(was, ms, n - 1, destRoot, minLength, j);
    }
  }

  /** A walk over a catalog whose discs are all processed makes no tool call. */
  lemma {:induction false} NothingPendingOnceProcessed(was: seq<MovieState>, ms: seq<Movie>, n: nat,
                                                       destRoot: string, minLength: int)
    requires |was| == |ms| && n <= |ms|
    requires forall j :: 0 <= j < |was| ==> was[j].Processed
    ensures Remuxable(was, ms, n) && Requests(was, ms, n, destRoot, minLength) == []
  {
    if n > 0 {
      NothingPendingOnceProcessed(was, ms, n - 1, destRoot, minLength);
    }
  }

  /** Whether the walk goes on to the next disc after a step: no remux was needed, or the tool did not fail. */
  predicate Advances(step: Option<RemuxStep>) {
    step.None? || (step.value.Ran? && step.value.outcome != ToolFailed)
  }

  /**
   * What a walk that began on the catalog states `was` reports: how far it
   * got, and which tool calls it made. The remaining steps are those after
   * `Done`; an abort names the step whose remux raised.
   */
  predicate Reported(was: seq<MovieState>, ms: seq<Movie>, interrupt: Option<nat>, tool: RemuxRequest -> ToolOutcome,
                     destRoot: string, minLength: int, calls: seq<RemuxRequest>, result: WalkResult)
    requires |was| == |ms|
  {
    var n := result.Done(|ms|);
    && n <= |ms|
    && (interrupt.Some? ==> n <= interrupt.value)
    && Remuxable(was, ms, n)
    && match result
       case Finished =>
         && calls == Requests(was, ms, n, destRoot, minLength)
         && (forall k :: 0 <= k < |calls| ==> tool(calls[k]) != ToolFailed)
       case Interrupted(at, _) =>
         && at < |ms| && interrupt == Some(at)
         && calls == Requests(was, ms, n, destRoot, minLength)
         && (forall k :: 0 <= k < |calls| ==> tool(calls[k]) != ToolFailed)
       case Aborted(at, reason) =>
         && at < |ms| && Pending(was, ms, at)
         && (interrupt.Some? ==> at < interrupt.value)
         && (forall k :: 0 <= k < |Requests(was, ms, n, destRoot, minLength)| ==>
               tool(Requests(was, ms, n, destRoot, minLength)[k]) != ToolFailed)
         && (reason == MissingPlaylist <==> was[at].Playlists == [])
         && (reason == MissingPlaylist ==> calls == Requests(was, ms, n, destRoot, minLength))
         && (reason == ToolError ==>
               && calls == Requests(was, ms, n, destRoot, minLength) + [RequestFor(was[at], destRoot, minLength)]
               && tool(RequestFor(was[at], destRoot, minLength)) == ToolFailed)
  }

  /**
   * The walk has completed its first n steps: `done` are the tool calls
   * they made, none of which failed, and no interrupt came before them.
   */
  predicate Progress(was: seq<MovieState>, ms: seq<Movie>, interrupt: Option<nat>, tool: RemuxRequest -> ToolOutcome,
                     destRoot: string, minLength: int, n: nat, done: seq<RemuxRequest>)
    requires |was| == |ms|
  {
    && n <= |ms|
    && Remuxable(was, ms, n)
    && done == Requests(was, ms, n, destRoot, minLength)
    && (forall k :: 0 <= k < |done| ==> tool(done[k]) != ToolFailed)
    && (interrupt.Some? ==> n <= interrupt.value)
  }

  /** A step that lets the walk go on extends the tool calls by the disc's remux, if it was pending. */
  lemma StepOnward(was: seq<MovieState>, ms: seq<Movie>, interrupt: Option<nat>, tool: RemuxRequest -> ToolOutcome,
                   destRoot: string, minLength: int, i: nat, done: seq<RemuxRequest>, step: Option<RemuxStep>)
    requires |was| == |ms| && i < |ms| && interrupt != Some(i)
    requires Progress(was, ms, interrupt, tool, destRoot, minLength, i, done)
    requires step.None? <==> !Pending(was, ms, i)
    requires step.Some? ==> step.value == RemuxMovie(was[i], destRoot, minLength, tool)
    requires Advances(step)
    ensures Progress(was, ms, interrupt, tool, destRoot, minLength, i + 1,
                     done + if step.Some? then [step.value.request] else [])
  {
  }

  /** A walk that completes every step reports the tool calls of all of them. */
  lemma ReportedFinished(was: seq<MovieState>, ms: seq<Movie>, interrupt: Option<nat>, tool: RemuxRequest -> ToolOutcome,
                         destRoot: string, minLength: int, calls: seq<RemuxRequest>)
    requires |was| == |ms|
    requires Progress(was, ms, interrupt, tool, destRoot, minLength, |ms|, calls)
    ensures Reported(was, ms, interrupt, tool, destRoot, minLength, calls, Finished)
  {
  }

  /** A walk interrupted before step i reports the tool calls of the steps before. */
  lemma ReportedInterrupted(was: seq<MovieState>, ms: seq<Movie>, interrupt: Option<nat>, tool: RemuxRequest -> ToolOutcome,
                            destRoot: string, minLength: int, i: nat, calls: seq<RemuxRequest>, checkpoint: Value)
    requires |was| == |ms| && i < |ms| && interrupt == Some(i)
    requires Progress(was, ms, interrupt, tool, destRoot, minLength, i, calls)
    ensures Reported(was, ms, interrupt, tool, destRoot, minLength, calls, Interrupted(i, checkpoint))
  {
  }

  /** A walk whose step i raised reports the tool calls before it, and the failed one if the tool was called. */
  lemma ReportedAborted(was: seq<MovieState>, ms: seq<Movie>, interrupt: Option<nat>, tool: RemuxRequest -> ToolOutcome,
                        destRoot: string, minLength: int, i: nat, done: seq<RemuxRequest>, step: RemuxStep)
    requires |was| == |ms| && i < |ms| && Pending(was, ms, i) && interrupt != Some(i)
    requires Progress(was, ms, interrupt, tool, destRoot, minLength, i, done)
    requires step == RemuxMovie(was[i], destRoot, minLength, tool) && (step.Ran? ==> step.outcome == ToolFailed)
    ensures step.NoPlaylist? ==>
      Reported(was, ms, interrupt, tool, destRoot, minLength, done, Aborted(i, MissingPlaylist))
    ensures step.Ran? ==>
      Reported(was, ms, interrupt, tool, destRoot, minLength, done + [step.request], Aborted(i, ToolError))
  {
  }

  /**
   * A disc is marked processed only after a successful remux: every disc
   * pending among the completed steps had a playlist, and the tool did not
   * fail on its call.
   */
  lemma CompletedStepsSucceeded(was: seq<MovieState>, ms: seq<Movie>, interrupt: Option<nat>,
                                tool: RemuxRequest -> ToolOutcome, destRoot: string, minLength: int,
                                calls: seq<RemuxRequest>, result: WalkResult)
    requires |was| == |ms|
    requires Reported(was, ms, interrupt, tool, destRoot, minLength, calls, result)
    ensures forall j :: 0 <= j < result.Done(|ms|) && Pending(was, ms, j) ==>
      was[j].Playlists != [] && tool(RequestFor(was[j], destRoot, minLength)) != ToolFailed
  {
    forall j | 0 <= j < result.Done(|ms|) && Pending(was, ms, j)
      ensures was[j].Playlists != [] && tool(RequestFor(was[j], destRoot, minLength)) != ToolFailed
    {
      RequestsInclude(was, ms, result.Done(|ms|), destRoot, minLength, j);
    }
  }

  /**
   * The report determines the walk: two reports of a walk over the same
   * records, with the same interrupt and the same tool, agree on the tool
   * calls and on how and where the walk ended (the checkpoint document
   * aside, which the report leaves to the caller).
   */
  lemma ReportedUnique(was: seq<MovieState>, ms: seq<Movie>, interrupt: Option<nat>, tool: RemuxRequest -> ToolOutcome,
                       destRoot: string, minLength: int, calls1: seq<RemuxRequest>, result1: WalkResult,
                       calls2: seq<RemuxRequest>, result2: WalkResult)
    requires |was| == |ms|
    requires Reported(was, ms, interrupt, tool, destRoot, minLength, calls1, result1)
    requires Reported(was, ms, interrupt, tool, destRoot, minLength, calls2, result2)
    ensures calls1 == calls2 && result1.Done(|ms|) == result2.Done(|ms|)
    ensures result1.Finished? == result2.Finished? && result1.Interrupted? == result2.Interrupted?
    ensures result1.Aborted? ==> result1 == result2
  {
    var n1, n2 := result1.Done(|ms|), result2.Done(|ms|);
    if result1.Aborted? && n1 < n2 {
      RequestsInclude(was, ms, n2, destRoot, minLength, n1);
    }
    if result2.Aborted? && n2 < n1 {
      RequestsInclude(was, ms, n1, destRoot, minLength, n2);
    }
  }

  /**
   * A walk over a catalog whose discs are all processed makes no tool call
   * and does not abort.
   */
  lemma IdleWalk(was: seq<MovieState>, ms: seq<Movie>, interrupt: Option<nat>, tool: RemuxRequest -> ToolOutcome,
                 destRoot: string, minLength: int, calls: seq<RemuxRequest>, result: WalkResult)
    requires |was| == |ms|
    requires forall j :: 0 <= j < |was| ==> was[j].Processed
    requires Reported(was, ms, interrupt, tool, destRoot, minLength, calls, result)
    ensures calls == [] && !result.Aborted?
  {
    NothingPendingOnceProcessed(was, ms, result.Done(|ms|), destRoot, minLength);
  }

  /**
   * Running the walk again on the records a finished walk left behind (the
   * catalog reloaded from its checkpoint, say) makes no tool call.
   */
  lemma SecondWalkIdle(was: seq<MovieState>, ms: seq<Movie>, now: seq<MovieState>, interrupt: Option<nat>,
                       tool: RemuxRequest -> ToolOutcome, destRoot: string, minLength: int,
                       calls: seq<RemuxRequest>, result: WalkResult)
    requires |was| == |ms| == |now|
    requires forall j :: 0 <= j < |ms| ==> now[j] == Walked(was, ms, |ms|, j)
    requires Reported(now, ms, interrupt, tool, destRoot, minLength, calls, result)
    ensures calls == [] && !result.Aborted?
  {
    forall j | 0 <= j < |ms|
      ensures now[j].Processed
    {
      WalkedToEnd(was, ms, j);
    }
    IdleWalk(now, ms, interrupt, tool, destRoot, minLength, calls, result);
  }
}
