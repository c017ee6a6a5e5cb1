// The controller of `watchProgress`: an initial refresh, one directory
// watch per watched file when its directory exists, a refresh per matching
// change event and per timer tick, and a cleanup that closes the watches.
// The file system, the timer and the signals are events handed to the
// controller; what the watched files hold at each refresh is a parameter.

module Watcher {
  import opened Wrappers
  import opened Display

  /** The two watched files. */
  datatype Target = StateDoc | IterationLog

  /** The file name a change event must carry for the target's watch to refresh. */
  function WatchedName(target: Target): string {
    match target
    case StateDoc => "STATE.md"
    case IterationLog => "ralph.log"
  }

  /** A change event with `filename` refreshes the target's watch exactly when it names the watched file. */
  predicate Matches(target: Target, filename: Option<string>) {
    filename == Some(WatchedName(target))
  }

  /** No event name matches both watched files. */
  lemma NoEventMatchesBoth(filename: Option<string>)
    ensures !(Matches(StateDoc, filename) && Matches(IterationLog, filename))
  {
    assert WatchedName(StateDoc)[0] != WatchedName(IterationLog)[0];
  }

  /** How many refreshes one event in the shared directory causes, given which watches are registered. */
  function PassesPerEvent(stateWatched: bool, logWatched: bool, filename: Option<string>): (n: nat)
    ensures n <= 1
    ensures n == 1 <==> (stateWatched && filename == Some("STATE.md")) || (logWatched && filename == Some("ralph.log"))
  {
    NoEventMatchesBoth(filename);
    (if stateWatched && Matches(StateDoc, filename) then 1 else 0)
    + (if logWatched && Matches(IterationLog, filename) then 1 else 0)
  }

  /** A registered `fs.watch` handle: open until the watcher closes it. */
  datatype WatchState = Open | Closed

  /** `fs.watch` on a file's directory when that directory exists, and no watch otherwise. */
  function Watch(dirExists: bool): (w: Option<WatchState>)
    ensures w.Some? <==> dirExists
    ensures w != Some(Closed)
  {
    if dirExists then Some(Open) else None
  }

  /** `close()` on a watch that was registered; a missing watch stays missing. */
  function CloseWatch(w: Option<WatchState>): (r: Option<WatchState>)
    ensures r.Some? <==> w.Some?
    ensures r != Some(Open)
  {
    match w
    case None => None
    case Some(_) => Some(Closed)
  }

  /** The running watcher: its two optional watches, the refreshes shown so far and the exit status once stopped. */
  class ProgressWatcher {
    const colors: Palette
    var stateWatch: Option<WatchState>
    var logWatch: Option<WatchState>
    var frames: seq<seq<DisplayLine>>
    var exitStatus: Option<int>

    /** While the watcher runs, every registered watch is open. */
    predicate Valid()
      reads this
    {
      exitStatus.None? ==> stateWatch != Some(Closed) && logWatch != Some(Closed)
    }

    /**
     * `watchProgress`: the first refresh, then a watch on the state
     * document's directory if it exists and a watch on the log's
     * directory if it exists (the two existence checks are separate).
     */
    constructor Start(colors: Palette, stateDirExists: bool, logDirExists: bool, state: FileRead, log: FileRead)
      ensures exitStatus == None && this.colors == colors
      ensures frames == [Render(state, log, colors)]
      ensures stateWatch.Some? <==> stateDirExists
      ensures logWatch.Some? <==> logDirExists
      ensures Valid()
    {
      var first := RenderPass(state, log, colors);
      this.colors := colors;
      frames := [first];
      exitStatus := None;
      stateWatch := Watch(stateDirExists);
      logWatch := Watch(logDirExists);
    }

    /** One call of `displayProgress` with the files as they are now. */
    method DisplayProgress(state: FileRead, log: FileRead)
      requires Valid()
      modifies this`frames
      ensures Valid()
      ensures frames == old(frames) + [Render(state, log, colors)]
    {
      var lines := RenderPass(state, log, colors);
      frames := frames + [lines];
    }

    /**
     * The callback of the target's watch: it refreshes once when the
     * event names the watched file and does nothing otherwise; an event
     * without a file name never refreshes.
     */
    method OnChange(target: Target, filename: Option<string>, state: FileRead, log: FileRead)
      requires Valid() && exitStatus.None?
      requires target == StateDoc ==> stateWatch.Some?
      requires target == IterationLog ==> logWatch.Some?
      modifies this`frames
      ensures Valid()
      ensures Matches(target, filename) ==> frames == old(frames) + [Render(state, log, colors)]
      ensures !Matches(target, filename) ==> frames == old(frames)
    {
      if filename == Some(WatchedName(target)) {
        DisplayProgress(state, log);
      }
    }

    /**
     * An event in the shared `.planning` directory reaches every
     * registered watch; it causes at most one refresh, since no name
     * matches both files.
     */
    method OnDirectoryEvent(filename: Option<string>, state: FileRead, log: FileRead)
      requires Valid() && exitStatus.None?
      modifies this`frames
      ensures Valid()
      ensures |frames| == |old(frames)| + PassesPerEvent(stateWatch.Some?, logWatch.Some?, filename)
      ensures frames[..|old(frames)|] == old(frames)
      ensures forall i :: |old(frames)| <= i < |frames| ==> frames[i] == Render(state, log, colors)
    {
      NoEventMatchesBoth(filename);
      if stateWatch.Some? {
        OnChange(StateDoc, filename, state, log);
      }
      if logWatch.Some? {
        OnChange(IterationLog, filename, state, log);
      }
    }

    /** The ten-second interval: always one refresh, whatever changed. */
    method OnTick(state: FileRead, log: FileRead)
      requires Valid() && exitStatus.None?
      modifies this`frames
      ensures Valid()
      ensures frames == old(frames) + [Render(state, log, colors)]
    {
      DisplayProgress(state, log);
    }

    /**
     * `cleanup` on SIGINT or SIGTERM: close the watches that were
     * registered, and only those, then exit with status 0.
     */
    method Cleanup()
      requires Valid() && exitStatus.None?
      modifies this`exitStatus, this`stateWatch, this`logWatch
      ensures Valid()
      ensures exitStatus == Some(0)
      ensures stateWatch == CloseWatch(old(stateWatch)) && logWatch == CloseWatch(old(logWatch))
      ensures frames == old(frames)
    {
      stateWatch := CloseWatch(stateWatch);
      logWatch := CloseWatch(logWatch);
      exitStatus := Some(0);
    }
  }
}
