/**
 * Parsing of the iteration log `.planning/ralph.log` into the ordered list
 * of iteration entries the dashboard shows.
 */
module LogParser {
  import opened Wrappers
  import opened Text
  import opened Fields

  /** One iteration record; a field is None when no line of its block carries the label. */
  datatype LogEntry = LogEntry(
    iteration: Option<string>,
    timestamp: Option<string>,
    task: Option<string>,
    status: Option<string>,
    duration: Option<string>,
    summary: Option<string>)

  /** The text the log is cut at; it need not stand on a line of its own. */
  const BlockSeparator := "---\n"

  const IterationLabel := "Iteration:"
  const TimestampLabel := "Timestamp:"
  const TaskLabel := "Task:"
  const EntryStatusLabel := "Status:"
  const DurationLabel := "Duration:"
  const SummaryLabel := "Summary:"

  /** The entry a block's lines describe: each field from the last line carrying its label. */
  function EntryOf(lines: seq<string>): LogEntry {
    LogEntry(
      LastLabelled(lines, IterationLabel),
      LastLabelled(lines, TimestampLabel),
      LastLabelled(lines, TaskLabel),
      LastLabelled(lines, EntryStatusLabel),
      LastLabelled(lines, DurationLabel),
      LastLabelled(lines, SummaryLabel))
  }

  /** `entry.iteration` is truthy: present and not the empty string. */
  predicate HasIteration(e: LogEntry) {
    e.iteration.Some? && e.iteration.value != ""
  }

  /** `block.trim()` is truthy. */
  predicate IsNonBlank(block: string) {
    Trim(block) != ""
  }

  /** `blocks.filter(b => b.trim())`: the non-blank blocks, in their order. */
  function NonBlank(blocks: seq<string>): (r: seq<string>)
    ensures |r| <= |blocks|
    ensures forall b :: b in r <==> b in blocks && IsNonBlank(b)
  {
    if blocks == [] then []
    else
      var last := blocks[|blocks| - 1];
      var init := blocks[..|blocks| - 1];
      assert blocks == init + [last];
      NonBlank(init) + (if IsNonBlank(last) then [last] else [])
  }

  /** The blocks `parseRalphLog` inspects: the non-blank pieces between separators. */
  function Blocks(logContent: string): seq<string> {
    NonBlank(Split(logContent, BlockSeparator))
  }

  /**
   * The entries the blocks yield, in block order: a block yields its entry
   * when the entry has a non-empty iteration and nothing otherwise.
   */
  function EntriesOf(blocks: seq<string>): (r: seq<LogEntry>)
    ensures |r| <= |blocks|
    ensures forall i :: 0 <= i < |r| ==> HasIteration(r[i])
  {
    if blocks == [] then []
    else
      var e := EntryOf(Lines(blocks[|blocks| - 1]));
      EntriesOf(blocks[..|blocks| - 1]) + (if HasIteration(e) then [e] else [])
  }

  /** The entries a log text yields. */
  function Entries(logContent: string): seq<LogEntry> {
    EntriesOf(Blocks(logContent))
  }

  /** No line starts with two of the six entry labels, so the order of the label tests is immaterial. */
  lemma EntryLabelsExclusive(line: string)
    ensures StartsWith(line, IterationLabel) ==>
      !StartsWith(line, TimestampLabel) && !StartsWith(line, TaskLabel) && !StartsWith(line, EntryStatusLabel)
      && !StartsWith(line, DurationLabel) && !StartsWith(line, SummaryLabel)
    ensures StartsWith(line, TimestampLabel) ==>
      !StartsWith(line, TaskLabel) && !StartsWith(line, EntryStatusLabel)
      && !StartsWith(line, DurationLabel) && !StartsWith(line, SummaryLabel)
    ensures StartsWith(line, TaskLabel) ==>
      !StartsWith(line, EntryStatusLabel) && !StartsWith(line, DurationLabel) && !StartsWith(line, SummaryLabel)
    ensures StartsWith(line, EntryStatusLabel) ==> !StartsWith(line, DurationLabel) && !StartsWith(line, SummaryLabel)
    ensures StartsWith(line, DurationLabel) ==> !StartsWith(line, SummaryLabel)
  {
    if |line| >= 2 {
      assert StartsWith(line, IterationLabel) ==> line[0] == 'I';
      assert StartsWith(line, TimestampLabel) ==> line[0] == 'T' && line[1] == 'i';
      assert StartsWith(line, TaskLabel) ==> line[0] == 'T' && line[1] == 'a';
      assert StartsWith(line, EntryStatusLabel) ==> line[0] == 'S' && line[1] == 't';
      assert StartsWith(line, DurationLabel) ==> line[0] == 'D';
      assert StartsWith(line, SummaryLabel) ==> line[0] == 'S' && line[1] == 'u';
    }
  }

  /**
   * The inner loop of `parseRalphLog`: a fresh record, then each labelled
   * line of the block overwrites its field with the trimmed text after the
   * label; the result is the entry the block describes.
   */
  method ParseBlock(block: string) returns (entry: LogEntry)
    ensures entry == EntryOf(Lines(block))
  {
    var lines := Lines(block);
    entry := LogEntry(None, None, None, None, None, None);
    for i := 0 to |lines|
      invariant entry == EntryOf(lines[..i])
    {
      var line := lines[i];
      EntryLabelsExclusive(line);
      LastLabelledStep(lines, IterationLabel, i);
      LastLabelledStep(lines, TimestampLabel, i);
      LastLabelledStep(lines, TaskLabel, i);
      LastLabelledStep(lines, EntryStatusLabel, i);
      LastLabelledStep(lines, DurationLabel, i);
      LastLabelledStep(lines, SummaryLabel, i);
      if StartsWith(line, "Iteration:") {
        entry := entry.(iteration := Some(Trim(Substring(line, 10))));
      } else if StartsWith(line, "Timestamp:") {
        entry := entry.(timestamp := Some(Trim(Substring(line, 10))));
      } else if StartsWith(line, "Task:") {
        entry := entry.(task := Some(Trim(Substring(line, 5))));
      } else if StartsWith(line, "Status:") {
        entry := entry.(status := Some(Trim(Substring(line, 7))));
      } else if StartsWith(line, "Duration:") {
        entry := entry.(duration := Some(Trim(Substring(line, 9))));
      } else if StartsWith(line, "Summary:") {
        entry := entry.(summary := Some(Trim(Substring(line, 8))));
      }
    }
    assert lines[..|lines|] == lines;
  }

  /**
   * `parseRalphLog`: cuts the log at every separator, skips blank blocks,
   * parses each remaining block into a fresh entry and keeps the entries
   * that have an iteration, in block order.
   */
  method ParseRalphLog(logContent: string) returns (entries: seq<LogEntry>)
    ensures entries == Entries(logContent)
  {
    var blocks := Blocks(logContent);
    entries := [];
    for i := 0 to |blocks|
      invariant entries == EntriesOf(blocks[..i])
    {
      var entry := ParseBlock(blocks[i]);
      assert blocks[..i + 1][..i] == blocks[..i];
      if HasIteration(entry) {
        entries := entries + [entry];
      }
    }
    assert blocks[..|blocks|] == blocks;
  }

  /**
   * Entries keep block order and come one per qualifying block: `origin[i]`
   * is the block the i-th entry was parsed from; the origins increase, and
   * every block whose entry has an iteration is among them.
   */
  lemma {:induction false} EntryOrigins(blocks: seq<string>) returns (origin: seq<nat>)
    ensures |origin| == |EntriesOf(blocks)|
    ensures forall i :: 0 <= i < |origin| ==>
      origin[i] < |blocks| && EntriesOf(blocks)[i] == EntryOf(Lines(blocks[origin[i]]))
    ensures forall i, j :: 0 <= i < j < |origin| ==> origin[i] < origin[j]
    ensures forall k :: 0 <= k < |blocks| && HasIteration(EntryOf(Lines(blocks[k]))) ==> k in origin
  {
    if blocks == [] {
      origin := [];
    } else {
      var n := |blocks| - 1;
      var init := blocks[..n];
      var before := EntryOrigins(init);
      assert forall k :: 0 <= k < n ==> init[k] == blocks[k];
      if HasIteration(EntryOf(Lines(blocks[n]))) {
        origin := before + [n];
      } else {
        origin := before;
      }
    }
  }

  /** `xs.filter(keep)`: the elements `keep` accepts, in their order. */
  function Filter<T>(xs: seq<T>, keep: T -> bool): seq<T> {
    if xs == [] then []
    else Filter(xs[..|xs| - 1], keep) + (if keep(xs[|xs| - 1]) then [xs[|xs| - 1]] else [])
  }

  /** The positions of the elements `filter` keeps, in order. */
  function Accepted<T>(xs: seq<T>, keep: T -> bool): (o: seq<nat>)
    ensures |o| == |Filter(xs, keep)|
    ensures forall i :: 0 <= i < |o| ==> o[i] < |xs|
  {
    if xs == [] then []
    else Accepted(xs[..|xs| - 1], keep) + (if keep(xs[|xs| - 1]) then [|xs| - 1] else [])
  }

  /** The i-th kept element is the element at the i-th kept position. */
  lemma {:induction false} AcceptedPick<T>(xs: seq<T>, keep: T -> bool)
    ensures forall i :: 0 <= i < |Accepted(xs, keep)| ==> Filter(xs, keep)[i] == xs[Accepted(xs, keep)[i]]
  {
    if xs != [] {
      var n := |xs| - 1;
      AcceptedPick(xs[..n], keep);
      forall i | 0 <= i < |Accepted(xs, keep)|
        ensures Filter(xs, keep)[i] == xs[Accepted(xs, keep)[i]]
      {
        if i < |Accepted(xs[..n], keep)| {
          assert xs[..n][Accepted(xs[..n], keep)[i]] == xs[Accepted(xs, keep)[i]];
        }
      }
    }
  }

  /** The kept positions strictly increase. */
  lemma {:induction false} AcceptedIncreasing<T>(xs: seq<T>, keep: T -> bool)
    ensures forall i, j :: 0 <= i < j < |Accepted(xs, keep)| ==> Accepted(xs, keep)[i] < Accepted(xs, keep)[j]
  {
    if xs != [] {
      AcceptedIncreasing(xs[..|xs| - 1], keep);
    }
  }

  /** Every kept position holds an accepted element. */
  lemma {:induction false} AcceptedKept<T>(xs: seq<T>, keep: T -> bool)
    ensures forall i :: 0 <= i < |Accepted(xs, keep)| ==> keep(xs[Accepted(xs, keep)[i]])
  {
    if xs != [] {
      var n := |xs| - 1;
      AcceptedKept(xs[..n], keep);
      forall i | 0 <= i < |Accepted(xs, keep)|
        ensures keep(xs[Accepted(xs, keep)[i]])
      {
        if i < |Accepted(xs[..n], keep)| {
          assert xs[..n][Accepted(xs[..n], keep)[i]] == xs[Accepted(xs, keep)[i]];
        }
      }
    }
  }

  /** Every accepted element's position is kept. */
  lemma {:induction false} AcceptedCover<T>(xs: seq<T>, keep: T -> bool)
    ensures forall k :: 0 <= k < |xs| && keep(xs[k]) ==> k in Accepted(xs, keep)
  {
    if xs != [] {
      var n := |xs| - 1;
      AcceptedCover(xs[..n], keep);
      forall k | 0 <= k < n && keep(xs[k])
        ensures k in Accepted(xs, keep)
      {
        assert xs[..n][k] == xs[k];
      }
    }
  }

  /**
   * `filter` keeps order and multiplicity: its result is accepted elements
   * at strictly increasing positions, and every accepted element is among
   * them.
   */
  lemma FilterOrigins<T>(xs: seq<T>, keep: T -> bool) returns (origin: seq<nat>)
    ensures |origin| == |Filter(xs, keep)|
    ensures forall i :: 0 <= i < |origin| ==>
      origin[i] < |xs| && Filter(xs, keep)[i] == xs[origin[i]] && keep(xs[origin[i]])
    ensures forall i, j :: 0 <= i < j < |origin| ==> origin[i] < origin[j]
    ensures forall k :: 0 <= k < |xs| && keep(xs[k]) ==> k in origin
  {
    AcceptedPick(xs, keep);
    AcceptedKept(xs, keep);
    AcceptedIncreasing(xs, keep);
    AcceptedCover(xs, keep);
    origin := Accepted(xs, keep);
  }

  /** The blank-block filter is `filter` with `b => b.trim()`. */
  lemma {:induction false} NonBlankIsFilter(blocks: seq<string>)
    ensures NonBlank(blocks) == Filter(blocks, IsNonBlank)
  {
    if blocks != [] {
      NonBlankIsFilter(blocks[..|blocks| - 1]);
    }
  }

  /**
   * The blank-block filter keeps order and multiplicity: its result is the
   * non-blank blocks at strictly increasing positions, and every non-blank
   * block is among them.
   */
  lemma NonBlankOrigins(blocks: seq<string>) returns (origin: seq<nat>)
    ensures |origin| == |NonBlank(blocks)|
    ensures forall i :: 0 <= i < |origin| ==>
      origin[i] < |blocks| && NonBlank(blocks)[i] == blocks[origin[i]] && IsNonBlank(blocks[origin[i]])
    ensures forall i, j :: 0 <= i < j < |origin| ==> origin[i] < origin[j]
    ensures forall k :: 0 <= k < |blocks| && IsNonBlank(blocks[k]) ==> k in origin
  {
    NonBlankIsFilter(blocks);
    origin := FilterOrigins(blocks, IsNonBlank);
  }

  /** Blocks are parsed independently: the entries of two runs of blocks are the entries of each, concatenated. */
  lemma {:induction false} EntriesOfConcat(xs: seq<string>, ys: seq<string>)
    ensures EntriesOf(xs + ys) == EntriesOf(xs) + EntriesOf(ys)
    decreases |ys|
  {
    if ys == [] {
      assert xs + ys == xs;
    } else {
      var n := |ys| - 1;
      assert (xs + ys)[..|xs + ys| - 1] == xs + ys[..n];
      assert (xs + ys)[|xs + ys| - 1] == ys[n];
      EntriesOfConcat(xs, ys[..n]);
    }
  }

  /**
   * A field of an entry is absent exactly when no line of its own block
   * carries the label: nothing is inherited from another block.
   */
  lemma EntryFieldsFromOwnBlock(lines: seq<string>)
    ensures EntryOf(lines).iteration.None? <==> forall i :: 0 <= i < |lines| ==> !StartsWith(lines[i], IterationLabel)
    ensures EntryOf(lines).timestamp.None? <==> forall i :: 0 <= i < |lines| ==> !StartsWith(lines[i], TimestampLabel)
    ensures EntryOf(lines).task.None? <==> forall i :: 0 <= i < |lines| ==> !StartsWith(lines[i], TaskLabel)
    ensures EntryOf(lines).status.None? <==> forall i :: 0 <= i < |lines| ==> !StartsWith(lines[i], EntryStatusLabel)
    ensures EntryOf(lines).duration.None? <==> forall i :: 0 <= i < |lines| ==> !StartsWith(lines[i], DurationLabel)
    ensures EntryOf(lines).summary.None? <==> forall i :: 0 <= i < |lines| ==> !StartsWith(lines[i], SummaryLabel)
  {
    LastLabelledAbsent(lines, IterationLabel);
    LastLabelledAbsent(lines, TimestampLabel);
    LastLabelledAbsent(lines, TaskLabel);
    LastLabelledAbsent(lines, EntryStatusLabel);
    LastLabelledAbsent(lines, DurationLabel);
    LastLabelledAbsent(lines, SummaryLabel);
  }

  /** Within a block the last line carrying a label gives the field its value. */
  lemma EntryFieldsFromLastLines(lines: seq<string>, k: nat)
    requires k < |lines|
    ensures IsLastWith(lines, IterationLabel, k) ==> EntryOf(lines).iteration == Some(Trim(Substring(lines[k], 10)))
    ensures IsLastWith(lines, TimestampLabel, k) ==> EntryOf(lines).timestamp == Some(Trim(Substring(lines[k], 10)))
    ensures IsLastWith(lines, TaskLabel, k) ==> EntryOf(lines).task == Some(Trim(Substring(lines[k], 5)))
    ensures IsLastWith(lines, EntryStatusLabel, k) ==> EntryOf(lines).status == Some(Trim(Substring(lines[k], 7)))
    ensures IsLastWith(lines, DurationLabel, k) ==> EntryOf(lines).duration == Some(Trim(Substring(lines[k], 9)))
    ensures IsLastWith(lines, SummaryLabel, k) ==> EntryOf(lines).summary == Some(Trim(Substring(lines[k], 8)))
  {
    assert |IterationLabel| == 10 && |TimestampLabel| == 10 && |TaskLabel| == 5;
    assert |EntryStatusLabel| == 7 && |DurationLabel| == 9 && |SummaryLabel| == 8;
    if IsLastWith(lines, IterationLabel, k) { LastLabelledWins(lines, IterationLabel, k); }
    if IsLastWith(lines, TimestampLabel, k) { LastLabelledWins(lines, TimestampLabel, k); }
    if IsLastWith(lines, TaskLabel, k) { LastLabelledWins(lines, TaskLabel, k); }
    if IsLastWith(lines, EntryStatusLabel, k) { LastLabelledWins(lines, EntryStatusLabel, k); }
    if IsLastWith(lines, DurationLabel, k) { LastLabelledWins(lines, DurationLabel, k); }
    if IsLastWith(lines, SummaryLabel, k) { LastLabelledWins(lines, SummaryLabel, k); }
  }

  /**
   * A block whose only iteration line holds nothing but white space after
   * the label yields no entry, exactly as a block with no iteration line.
   */
  lemma BlankIterationDropped(lines: seq<string>)
    requires forall i :: 0 <= i < |lines| && StartsWith(lines[i], IterationLabel) ==> AllSpace(lines[i][10..])
    ensures !HasIteration(EntryOf(lines))
  {
    LastLabelledAbsent(lines, IterationLabel);
    if EntryOf(lines).iteration.Some? {
      var k :| 0 <= k < |lines| && StartsWith(lines[k], IterationLabel);
      var last := LastWith(lines, IterationLabel, k);
      LastLabelledWins(lines, IterationLabel, last);
      TrimEmptyIff(lines[last][10..]);
    }
  }

  /** Some line carrying `prefix` has no later such line. */
  lemma {:induction false} LastWith(lines: seq<string>, prefix: string, k: nat) returns (last: nat)
    requires k < |lines| && StartsWith(lines[k], prefix)
    ensures k <= last && IsLastWith(lines, prefix, last)
    decreases |lines| - k
  {
    if j :| k < j < |lines| && StartsWith(lines[j], prefix) {
      last := LastWith(lines, prefix, j);
    } else {
      last := k;
    }
  }

  /** Every block `parseRalphLog` inspects is non-blank and holds no separator. */
  lemma BlocksAreSeparated(logContent: string)
    ensures forall i :: 0 <= i < |Blocks(logContent)| ==>
      IsNonBlank(Blocks(logContent)[i]) && !Contains(Blocks(logContent)[i], BlockSeparator)
  {
    var pieces := Split(logContent, BlockSeparator);
    SplitPiecesFree(logContent, BlockSeparator);
    forall i | 0 <= i < |Blocks(logContent)|
      ensures IsNonBlank(Blocks(logContent)[i]) && !Contains(Blocks(logContent)[i], BlockSeparator)
    {
      var b := Blocks(logContent)[i];
      assert b in pieces;
    }
  }

  /** The line ends with the three dashes a separator begins with. */
  predicate EndsWithDashes(line: string) {
    |line| >= 3 && line[|line| - 3..] == "---"
  }

  /** No separator starts within a line, or at its line feed, unless the line ends with dashes. */
  lemma NoSeparatorFromLine(line: string, rest: string, k: nat)
    requires '\n' !in line && !EndsWithDashes(line) && k <= |line|
    ensures !StartsWith((line + "\n" + rest)[k..], BlockSeparator)
  {
    var t := (line + "\n" + rest)[k..];
    if |t| >= 4 {
      if k + 3 < |line| {
        assert t[3] == line[k + 3] != '\n';
        assert t[..4][3] == t[3];
      } else if k + 3 == |line| {
        assert t[..3] == line[|line| - 3..] != "---";
        assert t[..4][..3] == t[..3];
      } else {
        assert t[|line| - k] == '\n';
        assert t[..4][|line| - k] == '\n';
      }
    }
  }

  /** No separator starts inside line-feed-terminated lines none of which ends with dashes. */
  lemma {:induction false} NoSeparatorInLines(ls: seq<string>, rest: string)
    requires forall i :: 0 <= i < |ls| ==> '\n' !in ls[i] && !EndsWithDashes(ls[i])
    ensures forall k :: 0 <= k < |Terminated(ls)| ==> !StartsWith((Terminated(ls) + rest)[k..], BlockSeparator)
  {
    if ls != [] {
      var line := ls[0];
      var tail := Terminated(ls[1..]);
      var s := Terminated(ls) + rest;
      assert s == line + "\n" + (tail + rest);
      NoSeparatorInLines(ls[1..], rest);
      forall k | 0 <= k < |Terminated(ls)| ensures !StartsWith(s[k..], BlockSeparator) {
        if k <= |line| {
          NoSeparatorFromLine(line, tail + rest, k);
        } else {
          assert s[k..] == (tail + rest)[k - |line| - 1..];
        }
      }
    }
  }

  /** A block whose lines hold no separator, then a separator: the block is the first piece. */
  lemma BlockThenRest(ls: seq<string>, rest: string)
    requires forall i :: 0 <= i < |ls| ==> '\n' !in ls[i] && !EndsWithDashes(ls[i])
    ensures Split(Terminated(ls) + BlockSeparator + rest, BlockSeparator)
      == [Terminated(ls)] + Split(rest, BlockSeparator)
  {
    var a := Terminated(ls);
    NoSeparatorInLines(ls, BlockSeparator + rest);
    assert a + (BlockSeparator + rest) == a + BlockSeparator + rest;
    SplitAfterPiece(a, BlockSeparator, rest);
  }

  /** A log of two blocks, each ended by a separator, splits into the two blocks and the empty rest. */
  lemma TwoBlockSplit(first: seq<string>, second: seq<string>)
    requires forall i :: 0 <= i < |first| ==> '\n' !in first[i] && !EndsWithDashes(first[i])
    requires forall i :: 0 <= i < |second| ==> '\n' !in second[i] && !EndsWithDashes(second[i])
    ensures Split(Terminated(first) + BlockSeparator + (Terminated(second) + BlockSeparator + ""), BlockSeparator)
      == [Terminated(first), Terminated(second), ""]
  {
    BlockThenRest(first, Terminated(second) + BlockSeparator + "");
    BlockThenRest(second, "");
    SplitWithoutSeparator("", BlockSeparator);
  }

  /** A line `<label> <value>` does not end with dashes when the value ends with another character. */
  lemma LabelledLineNoDashes(tag: string, w: string)
    requires w != [] && w[|w| - 1] != '-'
    ensures !EndsWithDashes(tag + " " + w)
  {
    var l := tag + " " + w;
    assert l[|l| - 1] == w[|w| - 1];
    if |l| >= 3 {
      assert l[|l| - 3..][2] == l[|l| - 1];
    }
  }

  /** The line `Iteration: <it>` carries the iteration label and no other entry label. */
  lemma IterationLine(it: string)
    ensures var l := IterationLabel + " " + it;
      StartsWith(l, IterationLabel) && !StartsWith(l, TimestampLabel) && !StartsWith(l, TaskLabel)
      && !StartsWith(l, EntryStatusLabel) && !StartsWith(l, DurationLabel) && !StartsWith(l, SummaryLabel)
  {
    var l := IterationLabel + " " + it;
    assert l[..|IterationLabel|] == IterationLabel;
    EntryLabelsExclusive(l);
  }

  /** The line `Status: <st>` carries the status label and no other entry label. */
  lemma StatusEntryLine(st: string)
    ensures var l := EntryStatusLabel + " " + st;
      StartsWith(l, EntryStatusLabel) && !StartsWith(l, IterationLabel) && !StartsWith(l, TimestampLabel)
      && !StartsWith(l, TaskLabel) && !StartsWith(l, DurationLabel) && !StartsWith(l, SummaryLabel)
  {
    var l := EntryStatusLabel + " " + st;
    assert l[..|EntryStatusLabel|] == EntryStatusLabel;
    EntryLabelsExclusive(l);
  }

  /** The line `Task: <task>` carries the task label and no other entry label. */
  lemma TaskEntryLine(task: string)
    ensures var l := TaskLabel + " " + task;
      StartsWith(l, TaskLabel) && !StartsWith(l, IterationLabel) && !StartsWith(l, TimestampLabel)
      && !StartsWith(l, EntryStatusLabel) && !StartsWith(l, DurationLabel) && !StartsWith(l, SummaryLabel)
  {
    var l := TaskLabel + " " + task;
    assert l[..|TaskLabel|] == TaskLabel;
    EntryLabelsExclusive(l);
  }

  /** The lines of an iteration line and a status line carry those two labels once each. */
  lemma IterationStatusLabels(it: string, st: string)
    ensures var lines := [IterationLabel + " " + it, EntryStatusLabel + " " + st, ""];
      && IsLastWith(lines, IterationLabel, 0) && IsLastWith(lines, EntryStatusLabel, 1)
      && forall i :: 0 <= i < |lines| ==>
        !StartsWith(lines[i], TimestampLabel) && !StartsWith(lines[i], TaskLabel)
        && !StartsWith(lines[i], DurationLabel) && !StartsWith(lines[i], SummaryLabel)
  {
    IterationLine(it);
    StatusEntryLine(st);
  }

  /** A block of an iteration line and a status line yields an entry with just those two fields. */
  lemma IterationStatusBlock(it: string, st: string)
    requires IsWord(it) && IsWord(st)
    ensures EntryOf(Lines(Terminated([IterationLabel + " " + it, EntryStatusLabel + " " + st])))
      == LogEntry(Some(it), None, None, Some(st), None, None)
  {
    var l0, l1 := IterationLabel + " " + it, EntryStatusLabel + " " + st;
    LinesOfTerminated([l0, l1]);
    var lines := [l0, l1, ""];
    assert [l0, l1] + [""] == lines;
    IterationStatusLabels(it, st);
    LabelledWord(IterationLabel, it);
    LabelledWord(EntryStatusLabel, st);
    EntryFieldsFromOwnBlock(lines);
    EntryFieldsFromLastLines(lines, 0);
    EntryFieldsFromLastLines(lines, 1);
  }

  /** A block of a task line alone yields no entry. */
  lemma TaskOnlyBlock(task: string)
    requires IsWord(task)
    ensures !HasIteration(EntryOf(Lines(Terminated([TaskLabel + " " + task]))))
  {
    var l0 := TaskLabel + " " + task;
    LinesOfTerminated([l0]);
    TaskEntryLine(task);
    EntryFieldsFromOwnBlock([l0] + [""]);
  }

  /** Filtering one more block appends it when it is non-blank. */
  lemma NonBlankSnoc(init: seq<string>, last: string)
    ensures NonBlank(init + [last]) == NonBlank(init) + (if IsNonBlank(last) then [last] else [])
  {
    assert (init + [last])[..|init|] == init;
  }

  /** Two non-blank blocks and the empty text after the last separator keep the two blocks. */
  lemma NonBlankPair(a: string, b: string)
    requires IsNonBlank(a) && IsNonBlank(b)
    ensures NonBlank([a, b, ""]) == [a, b]
  {
    NonBlankSnoc([], a);
    assert [] + [a] == [a];
    NonBlankSnoc([a], b);
    assert [a] + [b] == [a, b];
    assert !IsNonBlank("");
    NonBlankSnoc([a, b], "");
    assert [a, b] + [""] == [a, b, ""];
  }

  /** A log of two non-blank blocks, each closed by a separator, has those two blocks. */
  lemma TwoBlockLog(first: seq<string>, second: seq<string>)
    requires forall i :: 0 <= i < |first| ==> '\n' !in first[i] && !EndsWithDashes(first[i])
    requires forall i :: 0 <= i < |second| ==> '\n' !in second[i] && !EndsWithDashes(second[i])
    requires IsNonBlank(Terminated(first)) && IsNonBlank(Terminated(second))
    ensures Blocks(Terminated(first) + BlockSeparator + (Terminated(second) + BlockSeparator + ""))
      == [Terminated(first), Terminated(second)]
  {
    TwoBlockSplit(first, second);
    NonBlankPair(Terminated(first), Terminated(second));
  }

  /** A block whose first line opens with a character other than white space is not blank. */
  lemma OpeningLineNonBlank(ls: seq<string>)
    requires ls != [] && ls[0] != [] && !IsSpace(ls[0][0])
    ensures IsNonBlank(Terminated(ls))
  {
    var t := Terminated(ls);
    assert t[0] == ls[0][0];
    assert !AllSpace(t);
    TrimEmptyIff(t);
  }

  /** Of two blocks, only the first of which has an iteration, the first's entry is kept. */
  lemma EntriesKeepFirst(a: string, b: string)
    requires HasIteration(EntryOf(Lines(a))) && !HasIteration(EntryOf(Lines(b)))
    ensures EntriesOf([a, b]) == [EntryOf(Lines(a))]
  {
    assert [a, b][..1] == [a];
    assert [a][..0] == [];
  }

  /** Lines `<tag> <w>` whose tags hold no line feed and whose words do not end with a dash are plain. */
  lemma LabelledLinesPlain(ls: seq<string>, tagged: seq<(string, string)>)
    requires |ls| == |tagged|
    requires forall i :: 0 <= i < |tagged| ==>
      && ls[i] == tagged[i].0 + " " + tagged[i].1
      && '\n' !in tagged[i].0 && IsWord(tagged[i].1)
      && tagged[i].1 != [] && tagged[i].1[|tagged[i].1| - 1] != '-'
    ensures forall i :: 0 <= i < |ls| ==> '\n' !in ls[i] && !EndsWithDashes(ls[i])
  {
    forall i | 0 <= i < |ls|
      ensures '\n' !in ls[i] && !EndsWithDashes(ls[i])
    {
      LabelledLineNoDashes(tagged[i].0, tagged[i].1);
    }
  }

  /**
   * A log of an iteration-and-status block followed by a task-only block,
   * each closed by a separator, yields the first block's entry alone.
   */
  lemma IterationThenTaskLog(it: string, st: string, task: string)
    requires IsWord(it) && IsWord(st) && IsWord(task)
    requires it != [] && st != [] && task != []
    requires it[|it| - 1] != '-' && st[|st| - 1] != '-' && task[|task| - 1] != '-'
    ensures var first, second := [IterationLabel + " " + it, EntryStatusLabel + " " + st], [TaskLabel + " " + task];
      Entries(Terminated(first) + BlockSeparator + (Terminated(second) + BlockSeparator + ""))
      == [LogEntry(Some(it), None, None, Some(st), None, None)]
  {
    var first, second := [IterationLabel + " " + it, EntryStatusLabel + " " + st], [TaskLabel + " " + task];
    LabelledLinesPlain(first, [(IterationLabel, it), (EntryStatusLabel, st)]);
    LabelledLinesPlain(second, [(TaskLabel, task)]);
    OpeningLineNonBlank(first);
    OpeningLineNonBlank(second);
    TwoBlockLog(first, second);
    IterationStatusBlock(it, st);
    TaskOnlyBlock(task);
    EntriesKeepFirst(Terminated(first), Terminated(second));
  }

  /** The example log's text, written out, is its two blocks each closed by a separator. */
  lemma IterationThenTaskText(it: string, st: string, task: string)
    ensures var first, second := [IterationLabel + " " + it, EntryStatusLabel + " " + st], [TaskLabel + " " + task];
      IterationLabel + " " + it + "\n" + EntryStatusLabel + " " + st + "\n" + BlockSeparator
        + TaskLabel + " " + task + "\n" + BlockSeparator
      == Terminated(first) + BlockSeparator + (Terminated(second) + BlockSeparator + "")
  {
    var first, second := [IterationLabel + " " + it, EntryStatusLabel + " " + st], [TaskLabel + " " + task];
    assert Terminated(first[2..]) == "";
    assert Terminated(first[1..]) == first[1] + "\n";
    assert Terminated(second[1..]) == "";
  }

  /**
   * The log "Iteration: 1\nStatus: SUCCESS\n---\nTask: no-iter\n---\n"
   * yields exactly one entry, iteration "1" with status "SUCCESS"; the
   * second block has no iteration and is dropped.
   */
  lemma ScenarioOneEntry()
    ensures Entries(IterationLabel + " " + "1" + "\n" + EntryStatusLabel + " " + "SUCCESS" + "\n" + BlockSeparator
                    + TaskLabel + " " + "no-iter" + "\n" + BlockSeparator)
      == [LogEntry(Some("1"), None, None, Some("SUCCESS"), None, None)]
  {
    IterationThenTaskText("1", "SUCCESS", "no-iter");
    IterationThenTaskLog("1", "SUCCESS", "no-iter");
  }
}
