# Progress watcher, modelled in Dafny

The progress watcher is a live terminal dashboard. It reads two files from a
project's `.planning` directory:

- `STATE.md`, the state document, holds lines such as `Phase: Build` and
  `Status: SUCCESS`.
- `ralph.log`, the iteration log, holds blocks separated by `---` and a line
  feed. Each block holds lines such as `Iteration: 3` and `Task: …`.

The watcher parses both files and shows the current position and the five
newest iterations. It shows them again whenever one of the files changes and
every ten seconds. On SIGINT or SIGTERM it closes its watches and exits.

The model covers five parts:

- **`parseState`** (`StateParser`). `ParseState` is a loop, proved equal to
  `Snapshot`. In `Snapshot`, each of the five fields is the trimmed text after
  its label on the last line that carries the label, and `''` when no line
  does.
- **`parseRalphLog`** (`LogParser`). The text is cut at every occurrence of
  `---\n`, and blank pieces are dropped. Each remaining block becomes an
  entry with six optional fields, built by the same last-line-wins rule.
  An entry is kept only when its iteration is present and non-empty.
  - `ParseBlock` and `ParseRalphLog` are loops proved equal to `EntryOf`
    and `Entries`.
- **The recent-entry selection and `formatStatus`** (`Display`).
  - `Recent` models `entries.slice(-5)`.
  - `FormatStatus` puts a coloured mark before a status that upper-cases to
    SUCCESS, FAILURE or RETRY. The colours are parameters.
- **One refresh** (`Display`). `RenderPass` models `displayProgress` and is
  proved equal to `Render`.
  - The result is a list of display lines: the state section, then the log
    section.
  - Each file arrives as a `FileRead`: missing, unreadable with a message,
    or read with its text.
- **The controller of `watchProgress`** (`Watcher`). It is a class
  `ProgressWatcher` with these parts:
  - two optional watches, each open or closed;
  - the sequence of refreshes shown so far;
  - the exit status.

  Start, change events, timer ticks and cleanup are its methods. What the
  files hold at each refresh is passed in.

The JavaScript string operations the parsers rely on live in `Text`:

- `split` with a string separator;
- `trim`, over the full ECMAScript white-space and line-terminator set;
- `startsWith` and `substring`;
- an ASCII `toUpperCase`.

The rule shared by both parsers lives in `Fields`: a labelled line sets its
field, and the last one wins.

Points where the behaviour differs from what the log format suggests:

- The log is split on the substring `---\n` wherever it occurs, not on lines
  consisting of `---`. So `x---\n` also separates blocks, and a final `---`
  with no line feed does not.
- A block whose `Iteration:` line carries only white space yields no entry.
  So the number of entries can be smaller than the number of blocks that
  have an iteration line.
- A missing log shows nothing at all. There is no waiting line for it.
- An entry without a `Task:` line shows the task as `undefined`, which is
  what the template literal prints.

## Model

| member | source | states |
|---|---|---|
| Text.TrimIsWindow | bin/lib/progress-watcher.js:57 | The result is a contiguous window of the input. Everything before and after it is white space, and the result neither starts nor ends with white space. It is empty exactly when the whole input is white space. |
| Text.TrimOf | bin/lib/progress-watcher.js:57 | Trimming white space, then a word, then white space gives the word back. |
| Text.Split | bin/lib/progress-watcher.js:44 | Splitting on a non-empty separator always gives at least one piece. |
| Text.SplitJoin | bin/lib/progress-watcher.js:44 | Joining the pieces with the separator rebuilds the input, and the first piece is a prefix of it. |
| Text.SplitPiecesFree | bin/lib/progress-watcher.js:75 | No piece of a split contains the separator. |
| Text.SplitAfterPiece | bin/lib/progress-watcher.js:75 | The split cuts at the first occurrence of the separator, scanning from the left. |
| Text.SplitWithoutSeparator | bin/lib/progress-watcher.js:75 | A text without the separator is one piece. |
| Text.LinesOfTerminated | bin/lib/progress-watcher.js:44 | Splitting feed-terminated lines at line feeds gives the lines back, then an empty last piece. |
| Text.UpperIsWordIff | bin/lib/progress-watcher.js:109-114 | Upper-casing a status gives an upper-case word exactly when the status spells that word in any mix of cases. |
| Fields.LastLabelledStep | bin/lib/progress-watcher.js:53-67 | One more scanned line replaces the field exactly when it carries the label. |
| Fields.LastLabelledAbsent | bin/lib/progress-watcher.js:53-67 | A field stays unset exactly when no line carries its label. |
| Fields.LastLabelledWins | bin/lib/progress-watcher.js:53-67 | A field holds the trimmed value of the last line carrying its label. |
| Fields.LabelledWord | bin/lib/progress-watcher.js:57 | The line `label value` starts with the label, and the trimmed text after the label is the value. |
| StateParser.StateLabelsExclusive | bin/lib/progress-watcher.js:56-66 | No line starts with two of the five state labels, so the order of the `else if` tests does not matter. |
| StateParser.ParseState | bin/lib/progress-watcher.js:43-70 | The loop over the lines returns the snapshot in which every field comes from its last labelled line. |
| StateParser.ParseStateDefaults | bin/lib/progress-watcher.js:45-69 | A document with no labelled line gives five empty fields. |
| StateParser.SnapshotFieldsFromLastLines | bin/lib/progress-watcher.js:53-67 | Each field is `substring(n).trim()` of the last line with its label, where the offsets 6, 5, 7, 14 and 9 equal the label lengths. |
| StateParser.SnapshotFieldAbsent | bin/lib/progress-watcher.js:45-51 | A field whose label appears on no line is `''`. |
| StateParser.PhaseStatusDocument | bin/lib/progress-watcher.js:43-70 | A document `Phase: p` then `Status: s` gives phase p and status s, and `''` elsewhere. |
| StateParser.ScenarioBuildSucceeded | bin/lib/progress-watcher.js:43-70 | `"Phase: Build\nStatus: SUCCESS\n"` parses to phase `Build` and status `SUCCESS`, with the other fields `''`. |
| LogParser.NonBlank | bin/lib/progress-watcher.js:75 | The filter keeps exactly the blocks whose trim is non-empty, and never more blocks than it was given. |
| LogParser.FilterOrigins | bin/lib/progress-watcher.js:75 | `filter` keeps order and multiplicity. Its result is accepted elements at strictly increasing positions of the input, and every accepted element's position is among them. |
| LogParser.NonBlankIsFilter | bin/lib/progress-watcher.js:75 | Dropping blank blocks is `filter` with the predicate `b.trim()` is non-empty. |
| LogParser.NonBlankOrigins | bin/lib/progress-watcher.js:75 | The inspected blocks are non-blank split pieces at strictly increasing positions, and every non-blank piece is among them. |
| LogParser.EntriesOf | bin/lib/progress-watcher.js:97-99 | Every kept entry has a non-empty iteration, and there are at most as many entries as blocks. |
| LogParser.EntryLabelsExclusive | bin/lib/progress-watcher.js:82-94 | No line starts with two of the six entry labels. |
| LogParser.ParseBlock | bin/lib/progress-watcher.js:78-95 | The per-block loop gives the entry in which each field comes from the last line carrying its label. |
| LogParser.ParseRalphLog | bin/lib/progress-watcher.js:73-103 | The loop over blocks returns, in block order, the entries of the non-blank blocks that have an iteration. |
| LogParser.EntryOrigins | bin/lib/progress-watcher.js:75-100 | Each entry comes from a block, and the source blocks strictly increase. Every block whose entry has an iteration is among them. |
| LogParser.EntriesOfConcat | bin/lib/progress-watcher.js:77-100 | Blocks are parsed independently: the entries of two runs of blocks are each run's entries, concatenated. |
| LogParser.EntryFieldsFromOwnBlock | bin/lib/progress-watcher.js:79-95 | An entry field is absent exactly when no line of its own block carries the label, so nothing is inherited between blocks. |
| LogParser.EntryFieldsFromLastLines | bin/lib/progress-watcher.js:81-95 | Each entry field is `substring(n).trim()` of the last line in the block with its label, where the offsets 10, 10, 5, 7, 9 and 8 equal the label lengths. |
| LogParser.BlankIterationDropped | bin/lib/progress-watcher.js:97-99 | A block whose iteration lines hold only white space after the label yields no entry. |
| LogParser.BlocksAreSeparated | bin/lib/progress-watcher.js:75 | Every inspected block is non-blank and contains no `---\n`. |
| LogParser.TwoBlockSplit | bin/lib/progress-watcher.js:75 | Two blocks of plain lines, each closed by `---\n`, split into those two blocks and an empty rest. |
| LogParser.IterationThenTaskLog | bin/lib/progress-watcher.js:73-103 | An iteration-and-status block followed by a task-only block yields the first block's entry alone. |
| LogParser.ScenarioOneEntry | bin/lib/progress-watcher.js:73-103 | `"Iteration: 1\nStatus: SUCCESS\n---\nTask: no-iter\n---\n"` yields exactly one entry: iteration `1`, status `SUCCESS`, nothing else. |
| Display.SliceFrom | bin/lib/progress-watcher.js:162 | `slice(start)` returns a suffix. A negative start keeps `min(-start, n)` elements, and a non-negative start drops `min(start, n)` elements. |
| Display.Recent | bin/lib/progress-watcher.js:162 | `slice(-5)` keeps `min(5, n)` entries. They are the newest ones, oldest first, and all of them when there are at most five. |
| Display.FormatStatus | bin/lib/progress-watcher.js:106-119 | An absent or empty status gives `''`. A case-insensitive SUCCESS, FAILURE or RETRY becomes colour, mark, a space, the original status and reset. Anything else is returned unchanged. |
| Display.PositionLines | bin/lib/progress-watcher.js:136-149 | The position section opens with header, phase, plan and status. A non-empty lastActivity adds the Last line with that text, and a non-empty progress closes the section with the Progress header and that text. There are no other lines. |
| Display.StateSection | bin/lib/progress-watcher.js:131-155 | A missing document gives exactly the waiting line. An unreadable one gives exactly its error line. A read one gives the position section of the snapshot parsed from its text. |
| Display.ShownPositionFromLastLines | bin/lib/progress-watcher.js:133-148 | For a read document, the Phase, Plan and Status lines show the trimmed text after the label on the last line carrying it. So do the Last and progress lines, when that text is not empty. |
| Display.EntryLines | bin/lib/progress-watcher.js:166-177 | An entry shows its heading with the formatted status, then its task. A non-empty summary adds a line with the summary, and a non-empty duration closes the entry with a line holding the duration. There are no other lines. |
| Display.LogSection | bin/lib/progress-watcher.js:158-182 | A missing log gives nothing, and an unreadable one its error line. A read log gives nothing exactly when it yields no entry. |
| Display.ReadLogSection | bin/lib/progress-watcher.js:158-177 | A read log that yields entries shows the header, then the lines of each of its newest five entries in turn. |
| Display.EntriesLinesConcat | bin/lib/progress-watcher.js:166-177 | The lines of two runs of entries are the lines of each run, one after the other. |
| Display.EntriesLinesCons | bin/lib/progress-watcher.js:166-177 | Read from the front, as the loop prints them: the first entry's lines, then those of the rest. |
| Display.ShowState | bin/lib/progress-watcher.js:131-155 | The state half of a refresh produces the state section. |
| Display.ShowEntries | bin/lib/progress-watcher.js:166-177 | The loop over the recent entries produces each entry's lines in turn. |
| Display.ShowLog | bin/lib/progress-watcher.js:158-182 | The log half of a refresh produces the log section. |
| Display.RenderPass | bin/lib/progress-watcher.js:122-186 | One refresh produces the state section followed by the log section. |
| Display.EntriesHeadings | bin/lib/progress-watcher.js:166-168 | The headings of a run of entries name their iterations in order. |
| Display.ShownIterations | bin/lib/progress-watcher.js:161-168 | The headings shown for a read log are exactly the iterations of `slice(-5)` of its entries, in order. |
| Display.WaitingIffStateMissing | bin/lib/progress-watcher.js:131-155 | A refresh shows the waiting line exactly when the state document is missing. |
| Display.RecentHeaderIffEntries | bin/lib/progress-watcher.js:158-165 | A refresh shows the "Recent Iterations" header exactly when the log was read and yields at least one entry. |
| Watcher.NoEventMatchesBoth | bin/lib/progress-watcher.js:200-210 | No file name matches both `STATE.md` and `ralph.log`. |
| Watcher.PassesPerEvent | bin/lib/progress-watcher.js:198-214 | One event in the shared directory causes at most one refresh. It causes one exactly when it names `STATE.md` and that watch is registered, or names `ralph.log` and that watch is registered. |
| Watcher.Watch | bin/lib/progress-watcher.js:197-199 | A watch is registered exactly when its directory exists, and a new watch is open. |
| Watcher.CloseWatch | bin/lib/progress-watcher.js:219-220 | Closing leaves a registered watch closed and a missing watch missing. |
| Watcher.ProgressWatcher.Start | bin/lib/progress-watcher.js:189-214 | The watcher starts running with exactly one refresh shown. A watch is registered exactly when its directory exists, and every registered watch is open. |
| Watcher.ProgressWatcher.DisplayProgress | bin/lib/progress-watcher.js:194 | A call shows one more refresh of the files as they are now. |
| Watcher.ProgressWatcher.OnChange | bin/lib/progress-watcher.js:199-203 | The callback refreshes once when the event names the watched file exactly, and otherwise changes nothing. |
| Watcher.ProgressWatcher.OnDirectoryEvent | bin/lib/progress-watcher.js:198-214 | An event reaching both watches appends exactly `PassesPerEvent` refreshes, at most one, and keeps earlier refreshes. |
| Watcher.ProgressWatcher.OnTick | bin/lib/progress-watcher.js:228-231 | Each tick shows exactly one refresh, with no debouncing. |
| Watcher.ProgressWatcher.Cleanup | bin/lib/progress-watcher.js:217-222 | Cleanup closes each registered watch, and there are no others. It shows no new refresh and sets exit status 0. |

## Left out

- Colours: the ANSI codes, the `NO_COLOR` lookup and `clearScreen` are not modelled. `FormatStatus` takes the colours as a parameter. The display lines carry no colour codes, except the palette codes `FormatStatus` wraps a recognised status in.
- Layout: banners, indentation, blank lines, the clock shown in the banner, and the footer lines are not modelled. They are terminal formatting and wall-clock time, so the display lines keep only the content and order of the sections.
- The shutdown message printed by `cleanup` is terminal output and is not modelled.
- The file system, `fs.watch`, `setInterval`, the signal handlers and `process.exit` are not modelled. They are I/O, timers and signals. They become inputs: a `FileRead` per file at each refresh, a directory-existence flag per watch, and events with an optional file name. After `Cleanup` the model stops accepting events, because it does not model process exit.
- The `fs.watch` handles are Node objects outside this code. The model keeps only whether each watch is registered and whether it is open or closed, as a field of the watcher.
- The text of an error message is an opaque string, because the file system that produces it is not modelled.
- The command-line interface (`showHelp`, argument parsing and the project-root check, lines 234-277) is not modelled; it is plumbing around the core.
- Text.Upper: upper-casing is ASCII only. Characters whose JavaScript upper case is an ASCII letter or longer than one character are not handled (`ſ`, `ı`, `ß` and the like).
- Text.Trim: white space is the ECMAScript WhiteSpace and LineTerminator set over characters. JavaScript strings are UTF-16 code units, but the model works on Unicode scalar values, so surrogate pairs are not modelled.
