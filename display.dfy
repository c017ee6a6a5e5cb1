// One refresh of the progress display: which sections are shown for the
// state document and the iteration log, the last-five selection of log
// entries, and the colouring of an entry's status.

module Display {
  import opened Wrappers
  import opened Text
  import opened Fields
  import opened StateParser
  import opened LogParser

  /** How many log entries the display keeps, counted from the newest. */
  const RecentCount := 5

  /**
   * `Array.prototype.slice(start)`: a negative start counts back from the
   * end and is clamped at the front; a start past the end gives nothing.
   */
  function SliceFrom<T>(s: seq<T>, start: int): (r: seq<T>)
    ensures |r| <= |s| && r == s[|s| - |r|..]
    ensures start < 0 ==> |r| == if -start < |s| then -start else |s|
    ensures 0 <= start ==> |r| == if start < |s| then |s| - start else 0
  {
    var from := if start < 0 then (if |s| + start < 0 then 0 else |s| + start)
                else (if start < |s| then start else |s|);
    s[from..]
  }

  /** `entries.slice(-5)`: the newest five entries, oldest first, or all of them when there are fewer. */
  function Recent(entries: seq<LogEntry>): (r: seq<LogEntry>)
    ensures |r| == if |entries| < RecentCount then |entries| else RecentCount
    ensures forall i :: 0 <= i < |r| ==> r[i] == entries[|entries| - |r| + i]
    ensures |entries| <= RecentCount ==> r == entries
  {
    SliceFrom(entries, -RecentCount)
  }

  /** The terminal colours `formatStatus` wraps a recognised status in; passed in as opaque text. */
  datatype Palette = Palette(green: string, red: string, yellow: string, reset: string)

  const SuccessWord := "SUCCESS"
  const FailureWord := "FAILURE"
  const RetryWord := "RETRY"

  const SuccessMark := "\U{2713} "
  const FailureMark := "\U{2717} "
  const RetryMark := "\U{27F3} "

  /**
   * `formatStatus`: no status or an empty one gives the empty text; a
   * status that upper-cases to SUCCESS, FAILURE or RETRY keeps its own
   * spelling behind a coloured mark; any other status is shown as it is.
   */
  function FormatStatus(status: Option<string>, colors: Palette): (r: string)
    ensures status == None || status == Some("") ==> r == ""
    ensures status.Some? && SpellsIgnoringCase(status.value, SuccessWord)
      ==> r == colors.green + SuccessMark + status.value + colors.reset
    ensures status.Some? && SpellsIgnoringCase(status.value, FailureWord)
      ==> r == colors.red + FailureMark + status.value + colors.reset
    ensures status.Some? && SpellsIgnoringCase(status.value, RetryWord)
      ==> r == colors.yellow + RetryMark + status.value + colors.reset
    ensures status.Some? && status.value != ""
      && !SpellsIgnoringCase(status.value, SuccessWord)
      && !SpellsIgnoringCase(status.value, FailureWord)
      && !SpellsIgnoringCase(status.value, RetryWord)
      ==> r == status.value
  {
    if status.None? || status.value == "" then ""
    else
      var s := status.value;
      var upper := Upper(s);
      UpperIsWordIff(s, SuccessWord);
      UpperIsWordIff(s, FailureWord);
      UpperIsWordIff(s, RetryWord);
      if upper == SuccessWord then colors.green + SuccessMark + s + colors.reset
      else if upper == FailureWord then colors.red + FailureMark + s + colors.reset
      else if upper == RetryWord then colors.yellow + RetryMark + s + colors.reset
      else s
  }

  /** What became of an attempt to read one of the watched files. */
  datatype FileRead =
    | Missing                     // the file does not exist
    | Unreadable(message: string) // it exists but reading it failed
    | Read(text: string)          // its contents

  /** The lines of one refresh, without padding or blank separator lines; the only colours are the palette codes `FormatStatus` puts around a recognised status. */
  datatype DisplayLine =
    | WaitingForState
    | StateReadError(message: string)
    | PositionHeader
    | PhaseLine(phase: string)
    | PlanLine(plan: string)
    | StatusLine(status: string)
    | LastLine(lastActivity: string)
    | ProgressHeader
    | ProgressLine(progress: string)
    | LogReadError(message: string)
    | RecentHeader
    | EntryHead(iteration: string, status: string)
    | TaskLine(task: string)
    | SummaryLine(summary: string)
    | DurationLine(duration: string)

  /** An optional field interpolated into a template literal: an absent one reads "undefined". */
  function TemplateText(field: Option<string>): string {
    field.GetOr("undefined")
  }

  /** An optional field is truthy: present and not empty. */
  predicate Filled(field: Option<string>) {
    field.Some? && field.value != ""
  }

  /** The "Current Position" section for a parsed state document. */
  function PositionLines(s: StateSnapshot): (r: seq<DisplayLine>)
    ensures |r| == 4 + (if s.lastActivity != "" then 1 else 0) + (if s.progress != "" then 2 else 0)
    ensures r[..4] == [PositionHeader, PhaseLine(s.phase), PlanLine(s.plan), StatusLine(s.status)]
    ensures s.lastActivity != "" ==> r[4] == LastLine(s.lastActivity)
    ensures s.progress != "" ==> r[|r| - 2..] == [ProgressHeader, ProgressLine(s.progress)]
    ensures (exists i :: 0 <= i < |r| && r[i].LastLine?) <==> s.lastActivity != ""
    ensures (exists i :: 0 <= i < |r| && r[i].ProgressHeader?) <==> s.progress != ""
  {
    var head := [PositionHeader, PhaseLine(s.phase), PlanLine(s.plan), StatusLine(s.status)];
    var last := if s.lastActivity != "" then [LastLine(s.lastActivity)] else [];
    var progress := if s.progress != "" then [ProgressHeader, ProgressLine(s.progress)] else [];
    var r := head + last + progress;
    assert s.lastActivity != "" ==> r[4].LastLine?;
    assert s.progress != "" ==> r[|r| - 2].ProgressHeader?;
    r
  }

  /** The state section: a waiting line, an error line, or the position of the parsed document. */
  function StateSection(state: FileRead): (r: seq<DisplayLine>)
    ensures state.Missing? <==> r == [WaitingForState]
    ensures state.Unreadable? ==> r == [StateReadError(state.message)]
    ensures !state.Unreadable? ==> forall i :: 0 <= i < |r| ==> !r[i].StateReadError?
    ensures state.Read? <==> r != [] && r[0] == PositionHeader
    ensures state.Read? ==> r == PositionLines(Snapshot(Lines(state.text)))
  {
    match state
    case Missing => [WaitingForState]
    case Unreadable(message) => [StateReadError(message)]
    case Read(text) => PositionLines(Snapshot(Lines(text)))
  }

  /** The lines shown for one log entry. */
  function EntryLines(e: LogEntry, colors: Palette): (r: seq<DisplayLine>)
    ensures |r| == 2 + (if Filled(e.summary) then 1 else 0) + (if Filled(e.duration) then 1 else 0)
    ensures r[..2] == [EntryHead(TemplateText(e.iteration), FormatStatus(e.status, colors)), TaskLine(TemplateText(e.task))]
    ensures Filled(e.summary) ==> r[2] == SummaryLine(e.summary.value)
    ensures Filled(e.duration) ==> r[|r| - 1] == DurationLine(e.duration.value)
    ensures (exists i :: 0 <= i < |r| && r[i].SummaryLine?) <==> Filled(e.summary)
    ensures (exists i :: 0 <= i < |r| && r[i].DurationLine?) <==> Filled(e.duration)
    ensures forall i :: 2 <= i < |r| ==> !r[i].EntryHead?
  {
    var head := [EntryHead(TemplateText(e.iteration), FormatStatus(e.status, colors)), TaskLine(TemplateText(e.task))];
    var summary := if Filled(e.summary) then [SummaryLine(e.summary.value)] else [];
    var duration := if Filled(e.duration) then [DurationLine(e.duration.value)] else [];
    var r := head + summary + duration;
    assert Filled(e.summary) ==> r[2].SummaryLine?;
    assert Filled(e.duration) ==> r[|r| - 1].DurationLine?;
    r
  }

  /**
   * The lines of a read document show the trimmed text after the label on
   * the last line carrying it; the Last line and the progress line only
   * when that text is not empty.
   */
  lemma ShownPositionFromLastLines(text: string, k: nat)
    requires k < |Lines(text)|
    ensures |StateSection(Read(text))| >= 4
    ensures IsLastWith(Lines(text), PhaseLabel, k) ==>
      StateSection(Read(text))[1] == PhaseLine(Trim(Substring(Lines(text)[k], 6)))
    ensures IsLastWith(Lines(text), PlanLabel, k) ==>
      StateSection(Read(text))[2] == PlanLine(Trim(Substring(Lines(text)[k], 5)))
    ensures IsLastWith(Lines(text), StatusLabel, k) ==>
      StateSection(Read(text))[3] == StatusLine(Trim(Substring(Lines(text)[k], 7)))
    ensures IsLastWith(Lines(text), LastActivityLabel, k) && Trim(Substring(Lines(text)[k], 14)) != "" ==>
      |StateSection(Read(text))| > 4 && StateSection(Read(text))[4] == LastLine(Trim(Substring(Lines(text)[k], 14)))
    ensures IsLastWith(Lines(text), ProgressLabel, k) && Trim(Substring(Lines(text)[k], 9)) != "" ==>
      var r := StateSection(Read(text));
      r[|r| - 1] == ProgressLine(Trim(Substring(Lines(text)[k], 9)))
  {
    var lines := Lines(text);
    var snap := Snapshot(lines);
    SnapshotFieldsFromLastLines(lines, k);
    var r := StateSection(Read(text));
    assert r == PositionLines(snap);
    assert r[1] == PhaseLine(snap.phase) && r[2] == PlanLine(snap.plan) && r[3] == StatusLine(snap.status);
  }

  /** The lines for a run of entries, entry after entry. */
  function EntriesLines(entries: seq<LogEntry>, colors: Palette): seq<DisplayLine> {
    if entries == [] then []
    else EntriesLines(entries[..|entries| - 1], colors) + EntryLines(entries[|entries| - 1], colors)
  }

  /** The lines of two runs of entries are the lines of each run, one after the other. */
  lemma {:induction false} EntriesLinesConcat(xs: seq<LogEntry>, ys: seq<LogEntry>, colors: Palette)
    ensures EntriesLines(xs + ys, colors) == EntriesLines(xs, colors) + EntriesLines(ys, colors)
    decreases |ys|
  {
    if ys == [] {
      assert xs + ys == xs;
    } else {
      var n := |ys| - 1;
      assert (xs + ys)[..|xs + ys| - 1] == xs + ys[..n];
      assert (xs + ys)[|xs + ys| - 1] == ys[n];
      EntriesLinesConcat(xs, ys[..n], colors);
    }
  }

  /** Read from the front, as the `for ... of` loop prints them: the first entry's lines, then the rest's. */
  lemma EntriesLinesCons(e: LogEntry, rest: seq<LogEntry>, colors: Palette)
    ensures EntriesLines([e] + rest, colors) == EntryLines(e, colors) + EntriesLines(rest, colors)
  {
    EntriesLinesConcat([e], rest, colors);
    assert [e][..0] == [];
  }

  /** The log section: nothing for a missing log, an error line, or the recent entries under their header. */
  function LogSection(log: FileRead, colors: Palette): (r: seq<DisplayLine>)
    ensures log.Missing? ==> r == []
    ensures log.Unreadable? ==> r == [LogReadError(log.message)]
    ensures log.Read? ==> (r == [] <==> Entries(log.text) == [])
  {
    match log
    case Missing => []
    case Unreadable(message) => [LogReadError(message)]
    case Read(text) =>
      var recent := Recent(Entries(text));
      if recent == [] then [] else [RecentHeader] + EntriesLines(recent, colors)
  }

  /**
   * A read log that yields entries shows the header, then the lines of each
   * of its newest five entries in turn.
   */
  lemma ReadLogSection(text: string, colors: Palette)
    requires Entries(text) != []
    ensures LogSection(Read(text), colors) == [RecentHeader] + EntriesLines(Recent(Entries(text)), colors)
  {
  }

  /** One refresh: the state section, then the log section. */
  function Render(state: FileRead, log: FileRead, colors: Palette): seq<DisplayLine> {
    StateSection(state) + LogSection(log, colors)
  }

  /** The state half of `displayProgress`: parse the document when it was read and show its section. */
  method ShowState(state: FileRead) returns (lines: seq<DisplayLine>)
    ensures lines == StateSection(state)
  {
    match state {
      case Missing =>
        lines := [WaitingForState];
      case Unreadable(message) =>
        lines := [StateReadError(message)];
      case Read(text) =>
        var snapshot := ParseState(text);
        lines := PositionLines(snapshot);
    }
  }

  /** The loop over the recent entries: each entry's lines in turn. */
  method ShowEntries(recent: seq<LogEntry>, colors: Palette) returns (lines: seq<DisplayLine>)
    ensures lines == EntriesLines(recent, colors)
  {
    lines := [];
    for i := 0 to |recent|
      invariant lines == EntriesLines(recent[..i], colors)
    {
      assert recent[..i + 1][..i] == recent[..i];
      lines := lines + EntryLines(recent[i], colors);
    }
    assert recent[..|recent|] == recent;
  }

  /** The log half of `displayProgress`: parse the log when it was read and show its newest five entries. */
  method ShowLog(log: FileRead, colors: Palette) returns (lines: seq<DisplayLine>)
    ensures lines == LogSection(log, colors)
  {
    lines := [];
    match log {
      case Missing =>
      case Unreadable(message) =>
        lines := [LogReadError(message)];
      case Read(text) =>
        var entries := ParseRalphLog(text);
        var recent := SliceFrom(entries, -RecentCount);
        if |recent| > 0 {
          var shown := ShowEntries(recent, colors);
          lines := [RecentHeader] + shown;
        }
    }
  }

  /** `displayProgress`: the state section, then the log section. */
  method RenderPass(state: FileRead, log: FileRead, colors: Palette) returns (lines: seq<DisplayLine>)
    ensures lines == Render(state, log, colors)
  {
    var top := ShowState(state);
    var bottom := ShowLog(log, colors);
    lines := top + bottom;
  }

  /** The iterations named by the entry headings among `lines`, in order. */
  function Headings(lines: seq<DisplayLine>): seq<string> {
    if lines == [] then []
    else
      var last := lines[|lines| - 1];
      Headings(lines[..|lines| - 1]) + (if last.EntryHead? then [last.iteration] else [])
  }

  /** The iteration of each entry, in order. */
  function Iterations(entries: seq<LogEntry>): (r: seq<string>)
    ensures |r| == |entries|
  {
    if entries == [] then []
    else Iterations(entries[..|entries| - 1]) + [TemplateText(entries[|entries| - 1].iteration)]
  }

  lemma {:induction false} HeadingsConcat(xs: seq<DisplayLine>, ys: seq<DisplayLine>)
    ensures Headings(xs + ys) == Headings(xs) + Headings(ys)
    decreases |ys|
  {
    if ys == [] {
      assert xs + ys == xs;
    } else {
      var n := |ys| - 1;
      assert (xs + ys)[..|xs + ys| - 1] == xs + ys[..n];
      assert (xs + ys)[|xs + ys| - 1] == ys[n];
      HeadingsConcat(xs, ys[..n]);
    }
  }

  /** An entry's lines carry one heading, naming its iteration. */
  lemma EntryHeadings(e: LogEntry, colors: Palette)
    ensures Headings(EntryLines(e, colors)) == [TemplateText(e.iteration)]
  {
    var r := EntryLines(e, colors);
    var head := r[..2];
    assert r == head + r[2..];
    HeadingsConcat(head, r[2..]);
    assert head == [head[0]] + [head[1]];
    HeadingsConcat([head[0]], [head[1]]);
    assert [head[0]][..0] == [] && [head[1]][..0] == [];
    var tail := r[2..];
    if |tail| == 1 {
      assert tail[..0] == [];
    } else if |tail| == 2 {
      assert tail[..1][..0] == [];
      assert tail[..1] == [tail[0]];
    }
  }

  lemma {:induction false} EntriesHeadings(entries: seq<LogEntry>, colors: Palette)
    ensures Headings(EntriesLines(entries, colors)) == Iterations(entries)
    decreases |entries|
  {
    if entries != [] {
      var n := |entries| - 1;
      EntriesHeadings(entries[..n], colors);
      HeadingsConcat(EntriesLines(entries[..n], colors), EntryLines(entries[n], colors));
      EntryHeadings(entries[n], colors);
    }
  }

  /**
   * The entries the display names are the newest five the log yields,
   * oldest first: their headings spell out exactly the iterations of
   * `entries.slice(-5)`.
   */
  lemma ShownIterations(text: string, colors: Palette)
    ensures Headings(LogSection(Read(text), colors)) == Iterations(Recent(Entries(text)))
  {
    var recent := Recent(Entries(text));
    if recent != [] {
      HeadingsConcat([RecentHeader], EntriesLines(recent, colors));
      assert [RecentHeader][..0] == [];
      EntriesHeadings(recent, colors);
    }
  }

  /** The waiting line appears exactly when the state document is missing. */
  lemma WaitingIffStateMissing(state: FileRead, log: FileRead, colors: Palette)
    ensures WaitingForState in Render(state, log, colors) <==> state.Missing?
  {
    LogSectionNoWaiting(log, colors);
    StateSectionWaiting(state);
  }

  /** The state section shows the waiting line exactly for a missing document. */
  lemma StateSectionWaiting(state: FileRead)
    ensures WaitingForState in StateSection(state) <==> state.Missing?
  {
    if state.Read? {
      PositionNotMixed(Snapshot(Lines(state.text)));
    }
  }

  /** The position section holds neither the waiting line nor the log header. */
  lemma PositionNotMixed(s: StateSnapshot)
    ensures WaitingForState !in PositionLines(s) && RecentHeader !in PositionLines(s)
  {
    var r := PositionLines(s);
    assert forall i :: 0 <= i < |r| ==> r[i] != WaitingForState && r[i] != RecentHeader;
  }

  /** The log section never shows the state waiting line. */
  lemma LogSectionNoWaiting(log: FileRead, colors: Palette)
    ensures WaitingForState !in LogSection(log, colors)
  {
    if log.Read? {
      var recent := Recent(Entries(log.text));
      EntriesNoWaiting(recent, colors);
    }
  }

  /** No entry's lines hold the state waiting line. */
  lemma {:induction false} EntriesNoWaiting(entries: seq<LogEntry>, colors: Palette)
    ensures WaitingForState !in EntriesLines(entries, colors)
    decreases |entries|
  {
    if entries != [] {
      EntriesNoWaiting(entries[..|entries| - 1], colors);
      EntryNoWaiting(entries[|entries| - 1], colors);
    }
  }

  /** One entry's lines do not hold the state waiting line. */
  lemma EntryNoWaiting(e: LogEntry, colors: Palette)
    ensures WaitingForState !in EntryLines(e, colors)
  {
    var r := EntryLines(e, colors);
    assert forall i :: 0 <= i < |r| ==> r[i] != WaitingForState;
  }

  /** The "Recent Iterations" header appears exactly when the log was read and yields an entry. */
  lemma RecentHeaderIffEntries(state: FileRead, log: FileRead, colors: Palette)
    ensures RecentHeader in Render(state, log, colors) <==> log.Read? && Entries(log.text) != []
  {
    StateSectionNoRecent(state);
    LogSectionRecent(log, colors);
  }

  /** The state section never shows the log header. */
  lemma StateSectionNoRecent(state: FileRead)
    ensures RecentHeader !in StateSection(state)
  {
    if state.Read? {
      PositionNotMixed(Snapshot(Lines(state.text)));
    }
  }

  /** The log section shows its header exactly when the log was read and yields an entry. */
  lemma LogSectionRecent(log: FileRead, colors: Palette)
    ensures RecentHeader in LogSection(log, colors) <==> log.Read? && Entries(log.text) != []
  {
    if log.Read? && Entries(log.text) != [] {
      assert LogSection(log, colors)[0] == RecentHeader;
    }
  }
}
