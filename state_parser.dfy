/**
 * Parsing of the state document `.planning/STATE.md` into the five-field
 * position snapshot the dashboard shows.
 */
module StateParser {
  import opened Wrappers
  import opened Text
  import opened Fields

  /** The current position; every field is '' when its label is absent. */
  datatype StateSnapshot = StateSnapshot(
    phase: string,
    plan: string,
    status: string,
    progress: string,
    lastActivity: string)

  const PhaseLabel := "Phase:"
  const PlanLabel := "Plan:"
  const StatusLabel := "Status:"
  const LastActivityLabel := "Last activity:"
  const ProgressLabel := "Progress:"

  /** The snapshot a document's lines describe: each field from the last line carrying its label. */
  function Snapshot(lines: seq<string>): StateSnapshot {
    StateSnapshot(
      LastLabelled(lines, PhaseLabel).GetOr(""),
      LastLabelled(lines, PlanLabel).GetOr(""),
      LastLabelled(lines, StatusLabel).GetOr(""),
      LastLabelled(lines, ProgressLabel).GetOr(""),
      LastLabelled(lines, LastActivityLabel).GetOr(""))
  }

  /** No line starts with two of the five labels, so the order of the label tests is immaterial. */
  lemma StateLabelsExclusive(line: string)
    ensures StartsWith(line, PhaseLabel) ==>
      !StartsWith(line, PlanLabel) && !StartsWith(line, StatusLabel)
      && !StartsWith(line, LastActivityLabel) && !StartsWith(line, ProgressLabel)
    ensures StartsWith(line, PlanLabel) ==>
      !StartsWith(line, StatusLabel) && !StartsWith(line, LastActivityLabel) && !StartsWith(line, ProgressLabel)
    ensures StartsWith(line, StatusLabel) ==>
      !StartsWith(line, LastActivityLabel) && !StartsWith(line, ProgressLabel)
    ensures StartsWith(line, LastActivityLabel) ==> !StartsWith(line, ProgressLabel)
  {
    if |line| >= 2 {
      assert StartsWith(line, PhaseLabel) ==> line[1] == 'h';
      assert StartsWith(line, PlanLabel) ==> line[1] == 'l';
      assert StartsWith(line, StatusLabel) ==> line[0] == 'S';
      assert StartsWith(line, LastActivityLabel) ==> line[0] == 'L';
      assert StartsWith(line, ProgressLabel) ==> line[1] == 'r';
    }
  }

  /**
   * `parseState`: scans the lines of the document in order and lets each
   * labelled line overwrite its field with the trimmed text after the
   * label; the result is the snapshot the document describes.
   */
  method ParseState(stateContent: string) returns (result: StateSnapshot)
    ensures result == Snapshot(Lines(stateContent))
  {
    var lines := Lines(stateContent);
    result := StateSnapshot("", "", "", "", "");
    for i := 0 to |lines|
      invariant result == Snapshot(lines[..i])
    {
      var line := lines[i];
      StateLabelsExclusive(line);
      LastLabelledStep(lines, PhaseLabel, i);
      LastLabelledStep(lines, PlanLabel, i);
      LastLabelledStep(lines, StatusLabel, i);
      LastLabelledStep(lines, LastActivityLabel, i);
      LastLabelledStep(lines, ProgressLabel, i);
      if StartsWith(line, "Phase:") {
        result := result.(phase := Trim(Substring(line, 6)));
      } else if StartsWith(line, "Plan:") {
        result := result.(plan := Trim(Substring(line, 5)));
      } else if StartsWith(line, "Status:") {
        result := result.(status := Trim(Substring(line, 7)));
      } else if StartsWith(line, "Last activity:") {
        result := result.(lastActivity := Trim(Substring(line, 14)));
      } else if StartsWith(line, "Progress:") {
        result := result.(progress := Trim(Substring(line, 9)));
      }
    }
    assert lines[..|lines|] == lines;
  }

  /** A document in which no line starts with a label yields five empty fields; parsing never fails. */
  lemma ParseStateDefaults(stateContent: string)
    requires forall i :: 0 <= i < |Lines(stateContent)| ==>
      var line := Lines(stateContent)[i];
      !StartsWith(line, PhaseLabel) && !StartsWith(line, PlanLabel) && !StartsWith(line, StatusLabel)
      && !StartsWith(line, LastActivityLabel) && !StartsWith(line, ProgressLabel)
    ensures Snapshot(Lines(stateContent)) == StateSnapshot("", "", "", "", "")
  {
    var lines := Lines(stateContent);
    LastLabelledAbsent(lines, PhaseLabel);
    LastLabelledAbsent(lines, PlanLabel);
    LastLabelledAbsent(lines, StatusLabel);
    LastLabelledAbsent(lines, LastActivityLabel);
    LastLabelledAbsent(lines, ProgressLabel);
  }

  /**
   * Each field is the trimmed text after its label on the last line that
   * starts with that label; the offsets the parser skips are exactly the
   * label lengths, so no label character leaks into a value.
   */
  lemma SnapshotFieldsFromLastLines(lines: seq<string>, k: nat)
    requires k < |lines|
    ensures IsLastWith(lines, PhaseLabel, k) ==> Snapshot(lines).phase == Trim(Substring(lines[k], 6))
    ensures IsLastWith(lines, PlanLabel, k) ==> Snapshot(lines).plan == Trim(Substring(lines[k], 5))
    ensures IsLastWith(lines, StatusLabel, k) ==> Snapshot(lines).status == Trim(Substring(lines[k], 7))
    ensures IsLastWith(lines, LastActivityLabel, k) ==>
      Snapshot(lines).lastActivity == Trim(Substring(lines[k], 14))
    ensures IsLastWith(lines, ProgressLabel, k) ==> Snapshot(lines).progress == Trim(Substring(lines[k], 9))
  {
    assert |PhaseLabel| == 6 && |PlanLabel| == 5 && |StatusLabel| == 7;
    assert |LastActivityLabel| == 14 && |ProgressLabel| == 9;
    if IsLastWith(lines, PhaseLabel, k) { LastLabelledWins(lines, PhaseLabel, k); }
    if IsLastWith(lines, PlanLabel, k) { LastLabelledWins(lines, PlanLabel, k); }
    if IsLastWith(lines, StatusLabel, k) { LastLabelledWins(lines, StatusLabel, k); }
    if IsLastWith(lines, LastActivityLabel, k) { LastLabelledWins(lines, LastActivityLabel, k); }
    if IsLastWith(lines, ProgressLabel, k) { LastLabelledWins(lines, ProgressLabel, k); }
  }

  /** A field whose label never appears is ''. */
  lemma SnapshotFieldAbsent(lines: seq<string>)
    ensures (forall i :: 0 <= i < |lines| ==> !StartsWith(lines[i], PhaseLabel)) ==> Snapshot(lines).phase == ""
    ensures (forall i :: 0 <= i < |lines| ==> !StartsWith(lines[i], PlanLabel)) ==> Snapshot(lines).plan == ""
    ensures (forall i :: 0 <= i < |lines| ==> !StartsWith(lines[i], StatusLabel)) ==> Snapshot(lines).status == ""
    ensures (forall i :: 0 <= i < |lines| ==> !StartsWith(lines[i], LastActivityLabel)) ==>
      Snapshot(lines).lastActivity == ""
    ensures (forall i :: 0 <= i < |lines| ==> !StartsWith(lines[i], ProgressLabel)) ==> Snapshot(lines).progress == ""
  {
    LastLabelledAbsent(lines, PhaseLabel);
    LastLabelledAbsent(lines, PlanLabel);
    LastLabelledAbsent(lines, StatusLabel);
    LastLabelledAbsent(lines, LastActivityLabel);
    LastLabelledAbsent(lines, ProgressLabel);
  }

  /** The line `Phase: <phase>` carries the phase label and no other. */
  lemma PhaseLine(phase: string)
    ensures var l := PhaseLabel + " " + phase;
      StartsWith(l, PhaseLabel) && !StartsWith(l, PlanLabel) && !StartsWith(l, StatusLabel)
      && !StartsWith(l, ProgressLabel) && !StartsWith(l, LastActivityLabel)
  {
    var l := PhaseLabel + " " + phase;
    assert l[..|PhaseLabel|] == PhaseLabel;
    assert l[0] == 'P' && l[1] == 'h';
    DiffersFrom(l, PlanLabel, 1);
    DiffersFrom(l, StatusLabel, 0);
    DiffersFrom(l, ProgressLabel, 1);
    DiffersFrom(l, LastActivityLabel, 0);
  }

  /** The line `Status: <status>` carries the status label and no other. */
  lemma StatusLine(status: string)
    ensures var l := StatusLabel + " " + status;
      StartsWith(l, StatusLabel) && !StartsWith(l, PlanLabel) && !StartsWith(l, PhaseLabel)
      && !StartsWith(l, ProgressLabel) && !StartsWith(l, LastActivityLabel)
  {
    var l := StatusLabel + " " + status;
    assert l[..|StatusLabel|] == StatusLabel;
    assert l[0] == 'S';
    DiffersFrom(l, PhaseLabel, 0);
    DiffersFrom(l, PlanLabel, 0);
    DiffersFrom(l, ProgressLabel, 0);
    DiffersFrom(l, LastActivityLabel, 0);
  }

  /** The lines of a phase line and a status line, each followed by a line feed. */
  lemma PhaseStatusLines(phase: string, status: string)
    requires IsWord(phase) && IsWord(status)
    ensures Lines(PhaseLabel + " " + phase + "\n" + StatusLabel + " " + status + "\n")
      == [PhaseLabel + " " + phase, StatusLabel + " " + status, ""]
  {
    var l0 := PhaseLabel + " " + phase;
    var l1 := StatusLabel + " " + status;
    assert Terminated([l1]) == l1 + "\n" + "";
    assert Terminated([l0, l1]) == l0 + "\n" + Terminated([l1]);
    assert PhaseLabel + " " + phase + "\n" + StatusLabel + " " + status + "\n" == Terminated([l0, l1]);
    LinesOfTerminated([l0, l1]);
  }

  /** In those lines the phase and status labels each appear once and the others not at all. */
  lemma PhaseStatusLabels(phase: string, status: string)
    ensures var lines := [PhaseLabel + " " + phase, StatusLabel + " " + status, ""];
      IsLastWith(lines, PhaseLabel, 0) && IsLastWith(lines, StatusLabel, 1)
      && forall i :: 0 <= i < |lines| ==>
        !StartsWith(lines[i], PlanLabel) && !StartsWith(lines[i], ProgressLabel)
        && !StartsWith(lines[i], LastActivityLabel)
  {
    PhaseLine(phase);
    StatusLine(status);
  }

  /** A document of a phase line, a status line and a final line feed sets exactly those two fields. */
  lemma PhaseStatusDocument(phase: string, status: string)
    requires IsWord(phase) && IsWord(status)
    ensures Snapshot(Lines(PhaseLabel + " " + phase + "\n" + StatusLabel + " " + status + "\n"))
      == StateSnapshot(phase, "", status, "", "")
  {
    var lines := [PhaseLabel + " " + phase, StatusLabel + " " + status, ""];
    PhaseStatusLines(phase, status);
    PhaseStatusLabels(phase, status);
    LabelledWord(PhaseLabel, phase);
    LabelledWord(StatusLabel, status);
    SnapshotFieldAbsent(lines);
    SnapshotFieldsFromLastLines(lines, 0);
    SnapshotFieldsFromLastLines(lines, 1);
  }

  /** The state document "Phase: Build\nStatus: SUCCESS\n" gives phase "Build", status "SUCCESS" and '' elsewhere. */
  lemma ScenarioBuildSucceeded()
    ensures Snapshot(Lines(PhaseLabel + " " + "Build" + "\n" + StatusLabel + " " + "SUCCESS" + "\n"))
      == StateSnapshot("Build", "", "SUCCESS", "", "")
  {
    PhaseStatusDocument("Build", "SUCCESS");
  }
}
