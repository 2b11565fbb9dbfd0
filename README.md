# plywood, modelled in Dafny

plywood merges several line-oriented logs into one log in time order. Each
source is registered under a name. Time formats are registered as pairs of a
regular expression, whose first capture group is the timestamp, and a Go
`time.Parse` layout. On the first `Read`, every source binds the first format
that parses its first line, or stays unformatted. A merge loop then writes
output lines to a pipe. There is one for each line the scanner returns, and
one (normally empty) for a source with no lines at all. This holds as long as
every line is before the year-3000 sentinel; see `Merge.SentinelDefault`
below.

- It repeatedly selects the live source whose buffered line is earliest. A
  line without a timestamp beats every line at or after Go's zero time.
- It then drains that source for as long as its lines carry the same instant.
  A line the bound format cannot parse is a continuation line. It is written
  after a space and keeps the instant of the line before it.

Each output line is the absolute time and/or the offset from the first
timestamped line, then `[name]` and the rest of the input line. An
untimestamped line is written as `z [name]text`. `TestCustomFormat` checks a
format against an example line and the output expected for it.

The model is organised by module:

- `GoLib` (golib.dfy): the slice of Go's runtime the code depends on.
  - Instants are nanoseconds since Go's zero time.
  - `Time.Sub` saturates, and `/` and `%` truncate.
  - Regular expressions, `time.Parse`, calendar arithmetic, time rendering and
    the current year are fields of a `Lib` value passed as a parameter.
- `Extract` (extract.dfy): `timeExtractor.Parse`, and the probe that finds the
  first format to parse a line.
- `LineReader` (reader.dfy): `timedLineReader`.
  - As a value, `SrcState` with `Step` (`scan`) and `Pending` (every line the
    reader will still show).
  - As the mutable class `TimedLineReader`, whose `Prepare` and `Scan` are
    proved to follow `Prepared` and `Step`.
  - Also the scanner's line splitting (`bufio.ScanLines`).
- `Output` (output.dfy): `formatDuration` with Go's `%02d`/`%03d`, and the text
  of one line as `formatLine` builds it. `RenderFrom` renders a whole log
  while threading the relative-time baseline.
- `Merge` (merge.dfy): the merge on values.
  - `Pick` is `nextReader`.
  - `MergeLog` and `RunFrom` are the outer and inner loops of
    `readFromInputs`, as mutually recursive functions.
  - The lemmas prove:
    - every line is emitted exactly once and in source order;
    - the output is in time order when the sources are;
    - a run of equal instants is never interleaved;
    - the lines of untimestamped sources come before every timestamped line;
    - lines of different sources sharing an instant come out in the order
      the sources were registered;
    - the choice rule of `nextReader`, with its tie-breaks.
- `Engine` (plywood.dfy): the `Plywood` class, with `AddReader`,
  `AddTimeFormat`, `Read`, `nextReader`, `readFromInputs` and `formatLine` as
  methods. `Read` is proved to write exactly
  `Pipeline(names, inputs, formats, display)`, the rendering of the merged
  log.
- `CustomFormats` (customformats.dfy): `TestCustomFormat`, as a method that
  builds a real `Plywood`.

Two behaviours of `Parse` and `formatLine` differ from what one might expect;
the model follows the code:

- The residual text of a parse drops as many leading bytes of the line as the
  whole match is long, wherever the match was found. It is not the line with
  the matched span cut out. `Extract.UnanchoredResidual` shows the difference.
- The absolute column uses the time's own `Format`. It is not converted to
  UTC, although the help text of main.go (line 25) says output times are
  always in UTC.

Three behaviours of the code that look accidental are kept:

- Among untimestamped sources, the last one wins the selection
  (`Merge.PickRule`).
- The hour field of a duration is taken modulo 60 (`Output.DurationWraps`).
- `Merge.SentinelDefault` shows a further consequence of the year-3000
  sentinel in `nextReader`. When every live line is at or after the sentinel,
  reader 0 is selected even after it has ended: its line is written again,
  and the other readers' lines are lost. The delivery and ordering theorems
  therefore assume that every line is before the sentinel (`Engine.Timely`).

## Model

| member | source | states |
|---|---|---|
| GoLib.Sub | plywood/plywood.go:86 | `when.Sub(firstLineTime)` is the difference of the instants, saturated at the bounds of an int64 Duration |
| GoLib.Quot | plywood/plywood.go:95-99 | Go's `/` truncates toward zero: for a non-negative dividend, quotient times divisor is at most the dividend and within one divisor of it; for a negative dividend, it is at least the dividend, within one divisor of it, and never positive |
| GoLib.DivBounds | plywood/plywood.go:95-99 | Euclidean quotient times divisor brackets a non-negative dividend within one divisor, and negating the quotient negates the product |
| GoLib.Rem | plywood/plywood.go:95-99 | Go's `%`: quotient times divisor plus remainder is the dividend, and the remainder has the dividend's sign and is smaller than the divisor in magnitude |
| GoLib.QuotRemNonNegative | plywood/plywood.go:95-99 | on non-negative operands Go's `/` and `%` agree with Euclidean division |
| Extract.WithYear | plywood/plywood.go:132-134 | a parsed time whose year is 0 gets the current year added; any other time is kept as parsed |
| Extract.Parse | plywood/plywood.go:125-139 | succeeds exactly when the pattern matches with a capture group and the layout parses group 1. It fails with NoMatch exactly when there is no match or no group. On success the instant is the parsed one, with the current year added when its year is 0, and the residual is the line without as many leading characters as the whole match is long |
| Extract.AnchoredResidual | plywood/plywood.go:136 | when the match starts the line, the line is the match followed by the residual |
| Extract.UnanchoredResidual | plywood/plywood.go:136 | when the match starts later, the residual is not the line with the match removed: "abcd" matched at "bc" leaves "cd", not "ad" |
| Extract.FirstParse | plywood/plywood.go:161-169 | the probe returns the first extractor in list order that parses the line, with its parse. Every extractor before it fails, and it returns None exactly when every extractor fails |
| Extract.FirstParseAt | plywood/plywood.go:161-169 | an extractor that parses the line, after extractors that all fail, is the one the probe returns |
| LineReader.Fresh | plywood/plywood.go:149-156 | a new reader is well formed, live and unbound, with all its lines unread |
| LineReader.Head | plywood/plywood.go:173-182 | the buffered line as `logTime` and `logText` report it: at the zero time when unbound, at the buffered instant when bound |
| LineReader.FirstLine | plywood/plywood.go:159-160 | the line `prepare` reads: the first unread line, or "" when the first `Scan` finds nothing |
| LineReader.PeekTime | plywood/plywood.go:173-178 | an unbound reader reports the zero time |
| LineReader.Step | plywood/plywood.go:184-202 | `scan` reports more lines exactly when one is left and consumes it. Unbound: the raw line. Bound and parsed: the new instant and the residual. Bound and not parsed: the old instant, the line after a space, and a continuation error carrying the parse error. At the end: the reader is inactive, with NoMoreLines |
| LineReader.Pending | plywood/plywood.go:173-202 | a live reader shows its buffered line first, then one line per unread line; an ended reader shows nothing |
| LineReader.StepPops | plywood/plywood.go:184-202 | `scan` removes exactly the buffered line from what the reader will show, keeps it well formed, and reports more lines exactly when two or more were pending |
| LineReader.PendingEntry | plywood/plywood.go:184-198 | line k+1 a reader shows comes from its k-th unread line: raw when unbound; the parse when the bound extractor accepts it; otherwise a continuation with the previous line's instant |
| LineReader.UnboundAllZero | plywood/plywood.go:173-178 | every line of an unbound reader is at the zero time |
| LineReader.Prepared | plywood/plywood.go:158-171 | `prepare` consumes the first line (nothing when the input is empty) and keeps the reader live |
| LineReader.PrepareBinds | plywood/plywood.go:158-171 | `prepare` binds the first extractor that parses the first line and buffers its instant and residual. When none parses it, the reader stays unbound and buffers the raw line |
| LineReader.EntriesLength | plywood/plywood.go:158-171 | a source shows one line per input line, and an empty source still shows one (empty, unless a format parses "") line |
| LineReader.DropCR | plywood/plywood.go:153 | `bufio.ScanLines` drops one trailing carriage return: the token is the line itself, or the line followed by "\r" |
| LineReader.Terminated | plywood/plywood.go:153 | each line with the newline the scanner removed put back: line k of the result is line k of the input followed by "\n" |
| LineReader.Concat | plywood/customformats.go:37-41 | `ioutil.ReadAll` of the pipe joins what was written; a single write reads back as itself |
| LineReader.LineEnd | plywood/plywood.go:153 | the index of the first newline, or the length when there is none |
| LineReader.ScanLines | plywood/plywood.go:153 | the scanner's lines: none for empty input, and none of them holds a newline |
| LineReader.ScanLinesJoin | plywood/plywood.go:153 | a text without carriage returns that ends with a newline is its lines, each followed by a newline |
| LineReader.ScanLinesStep | plywood/plywood.go:153 | the first line runs up to the first newline, and the rest are the lines of what follows it |
| LineReader.OneScannedLine | plywood/plywood.go:153 | a text with no newline and no trailing carriage return is one line, itself |
| LineReader.TimedLineReader.constructor | plywood/plywood.go:149-156 | a new reader is live, unbound, buffers nothing, and has all its lines unread |
| LineReader.TimedLineReader.Prepare | plywood/plywood.go:158-171 | the reader afterwards is `Prepared` of the reader before |
| LineReader.TimedLineReader.LogTime | plywood/plywood.go:173-178 | the instant of the buffered line: the zero time when unbound |
| LineReader.TimedLineReader.LogText | plywood/plywood.go:180-182 | the text of the buffered line |
| LineReader.TimedLineReader.Scan | plywood/plywood.go:184-202 | the new reader state, flag and error are exactly those of `Step` on the old state |
| Output.PadInt | plywood/plywood.go:101 | `%0Nd` is at least N characters, and starts with a minus sign exactly when the value is negative |
| Output.PadIntRoundTrip | plywood/plywood.go:101 | `%0Nd` of a value below 10^N is N digits that read back as the value |
| Output.PadIntNegativeRoundTrip | plywood/plywood.go:101 | `%0Nd` of a negative value above -10^(N-1) is a minus sign and N-1 digits, the sign counting toward the width, that read back as the value's magnitude |
| Output.PrintSmall | plywood/plywood.go:101 | `%02d` and `%03d` on sample values, negatives included ("-1", "-500") |
| Output.ClockOf | plywood/plywood.go:95-99 | the fields of `formatDuration` from the whole milliseconds: each within 0 up to its range for a non-negative duration, and within the negated range, never positive, for a negative one |
| Output.RenderClock | plywood/plywood.go:101 | `%02d:%02d:%02d:%03d` is at least 12 characters long |
| Output.FormatDuration | plywood/plywood.go:94-102 | a duration renders as at least 12 characters. What the text says is stated by `Output.DurationFields` and `Output.DurationRoundTrip` |
| Output.DurationFields | plywood/plywood.go:94-99 | for a non-negative duration each field is the Euclidean quotient and remainder, within its range |
| Output.RenderClockReadBack | plywood/plywood.go:101 | fields within range print as `HH:MM:SS:mmm` and read back as their milliseconds |
| Output.DurationRoundTrip | plywood/plywood.go:94-102 | below 60 hours a duration renders as `HH:MM:SS:mmm` and reads back as its whole milliseconds |
| Output.FieldShift | plywood/plywood.go:97-99 | a field `(x / n) % m` is unchanged by adding whole multiples of `m * n` |
| Output.DurationWraps | plywood/plywood.go:99 | the hour field is taken modulo 60: durations 60 hours apart render the same |
| Output.DurationExample | plywood/plywood.go:94-102 | 1h02m03.456s renders as 01:02:03:456 |
| Output.NegativeDurationExample | plywood/plywood.go:94-102 | -1.5s renders as 00:00:-1:-500, with Go's signs |
| Output.ZeroDuration | plywood/plywood.go:94-102 | a zero duration renders as 00:00:00:000 |
| Output.Tail | plywood/plywood.go:89 | `[name]line` and a newline is three characters longer than the name and the line |
| Output.TailShape | plywood/plywood.go:89 | that text is "[", the name, "]", the line and a newline, in that order |
| Output.StampColumn | plywood/plywood.go:79-81 | the absolute column is present exactly when absolute times are shown |
| Output.OffsetColumn | plywood/plywood.go:82-88 | the relative column is present exactly when relative times are shown, and is then at least 14 characters |
| Output.OffsetShape | plywood/plywood.go:82-88 | the relative column is the rendered offset of the line from the baseline in force after it, in brackets. The line that sets the baseline shows a zero offset |
| Output.NextBaseline | plywood/plywood.go:82-85 | the baseline is set by the first timestamped line when relative times are shown, and never changes once set |
| Output.RenderLine | plywood/plywood.go:73-90 | a zero-time line is `z [name]text`. A timestamped one is the absolute column, then the relative column, then `[name]text` and a newline |
| Output.RenderFrom | plywood/plywood.go:59 | the merge writes exactly one output line for each emitted line, with the baseline threaded from each line to the next (its content is `Output.RenderAt`) |
| Output.RenderAt | plywood/plywood.go:59 | line j of the output is line j of the log, rendered against the baseline the lines before it left |
| Output.RenderSnoc | plywood/plywood.go:59 | one more line appends its rendering against the baseline so far |
| Output.RenderAppend | plywood/plywood.go:59 | rendering two logs in turn renders the second against the baseline the first left |
| Output.BaselineAppend | plywood/plywood.go:82-85 | the baseline after two logs is the one the second leaves, starting from the one the first left |
| Output.BaselineStable | plywood/plywood.go:83-85 | a baseline, once set, is never replaced |
| Output.BaselineIsFirstTimed | plywood/plywood.go:82-85 | starting unset, the baseline is the instant of the first timestamped line when relative times are shown, and stays unset otherwise |
| Output.RelativeLine | plywood/plywood.go:82-89 | a timestamped line shows its offset from the baseline in force after it |
| Output.FirstRelativeLine | plywood/plywood.go:83-88 | the line that sets the baseline shows a zero offset |
| Output.RenderAtFirstTimed | plywood/plywood.go:82-89 | with relative times shown and the baseline unset at the start, line j is rendered against the first instant among the lines before it |
| Output.FirstTimedNext | plywood/plywood.go:83-85 | after a timestamped line j, the baseline is the first instant among the lines up to and including it |
| Output.OffsetFrom | plywood/plywood.go:82-89 | a timestamped line shows its offset from whatever baseline is in force after it |
| Output.RelativeOffsets | plywood/plywood.go:82-89 | with relative times shown, each timestamped line shows its offset from the first timestamped line of the output, whatever source that came from; that first line shows 00:00:00:000 |
| Merge.PickScan | plywood/plywood.go:105-118 | the running choice of `nextReader` is an index already looked at, and 0 before any |
| Merge.Pick | plywood/plywood.go:104-118 | `nextReader` returns an index of a reader |
| Merge.PickScanLive | plywood/plywood.go:107-116 | the choice is a live reader holding the minimum once some live reader can beat the sentinel, and stays at index 0 with the sentinel otherwise |
| Merge.PickScanZero | plywood/plywood.go:108-116 | when no live reader shows an instant before the zero time and a zero-time reader is among those scanned, the choice is the last live zero-time one, with the zero time as minimum |
| Merge.PickScanEarliest | plywood/plywood.go:108-116 | with no zero-time reader among those scanned, whatever the instants, the running minimum is at most every live reader's instant, and strictly below those of live readers registered before the choice |
| Merge.PickRule | plywood/plywood.go:104-118 | when every live reader is at or after the zero time, `nextReader` picks the last live zero-time reader. Without a zero-time reader it picks the earliest live reader, the first-registered on ties. With no live reader before the sentinel it picks index 0 |
| Merge.PickMinimal | plywood/plywood.go:104-118 | when some live reader is before the sentinel, and no zero-time reader is up against an earlier instant, the selected reader is live and its instant is no later than any live reader's |
| Merge.NegativeBeatsZero | plywood/plywood.go:108-116 | an instant before the zero time beats a zero-time line: an unbound reader followed by a bound one at -5ns selects the bound one |
| Merge.CountPositive | plywood/plywood.go:51 | the count of live readers is 0 exactly when no reader is live |
| Merge.Project | plywood/plywood.go:50-69 | the lines the merged log holds for one reader, in log order: never more than the log holds |
| Merge.MergeLog | plywood/plywood.go:50-69 | the merge emits nothing exactly when `activeReaders` is not positive, and only lines of registered readers |
| Merge.RunFrom | plywood/plywood.go:54-68 | the inner loop first emits the selected reader's buffered line |
| Merge.RunFromStep | plywood/plywood.go:54-68 | one pass emits the buffered line, then the rest of the run when the new line has the same instant, and otherwise the rest of the merge; the measure decreases |
| Merge.PickLive | plywood/plywood.go:51-53 | while `activeReaders` is positive, `nextReader` selects a live reader |
| Merge.StepKeeps | plywood/plywood.go:55-63 | a pass keeps `activeReaders` equal to the number of live readers, and takes exactly one line off the selected reader |
| Merge.MergeProject | plywood/plywood.go:50-69 | every reader's lines appear in the merged log exactly once and in input order |
| Merge.RunProject | plywood/plywood.go:54-68 | the same, for the log that starts with a run of a live reader |
| Merge.ProjectPop | plywood/plywood.go:56-60 | emitting a reader's buffered line ahead of the rest accounts for exactly that line of that reader |
| Merge.EmissionsFromPending | plywood/plywood.go:50-69 | every emitted line names a registered reader and is a line that reader had to show |
| Merge.RunFromPending | plywood/plywood.go:54-68 | the same, for the log that starts with a run of a live reader |
| Merge.StepKeepsOrder | plywood/plywood.go:60 | a pass keeps every reader's lines in time order and no earlier than before |
| Merge.StepKeepsFrom | plywood/plywood.go:60 | a pass keeps every pending line at or after a bound all pending lines had before it |
| Merge.MergeSorted | plywood/plywood.go:50-69 | when each reader's lines are in time order and not before the zero time, the merged log is in time order |
| Merge.RunSorted | plywood/plywood.go:54-68 | the same, for the log starting with a run of the earliest reader |
| Merge.MergeFrom | plywood/plywood.go:50-69 | no merged line is earlier than a bound on all pending lines |
| Merge.RunFromBound | plywood/plywood.go:54-68 | the same, for a run |
| Merge.SameRun | plywood/plywood.go:64-67 | the length of the prefix of lines sharing the first line's instant |
| Merge.RunGroup | plywood/plywood.go:54-68 | a selected reader's lines up to the first different instant are emitted back to back, with nothing from other readers in between |
| Merge.UnboundDrains | plywood/plywood.go:54-68 | an unbound reader, once selected, is drained completely in one run |
| Merge.MergeUnboundFirst | plywood/plywood.go:50-69 | when no pending line is before the zero time, every line of an unbound reader is emitted before every line with an instant |
| Merge.RunUnboundFirst | plywood/plywood.go:54-68 | the same, for a run that starts on a line with an instant only once no unbound reader is live |
| Merge.UnboundFirstCons | plywood/plywood.go:59-60 | a line emitted ahead of such a log keeps unbound lines first: it has the zero time or no unbound reader is live |
| Merge.MergeTies | plywood/plywood.go:50-69 | when every reader's lines are in time order and at or after the zero time, lines of different readers sharing an instant other than the zero time come out in registration order |
| Merge.RunTies | plywood/plywood.go:54-68 | the same, for a run of a reader that leads every earlier-registered live reader |
| Merge.TiesCons | plywood/plywood.go:108-116 | emitting the chosen reader's line ahead of a log ordered by registration keeps it ordered: a later line of the same instant comes from a later-registered reader |
| Merge.ConsTies | plywood/plywood.go:59 | a line ahead of a log ordered by registration keeps it ordered when every later line sharing its instant from another reader comes from a later-registered one |
| Merge.HeadBelow | plywood/plywood.go:173-182 | a reader whose lines are in time order is live and shows a buffered line no later than any of its lines |
| Merge.SentinelDefault | plywood/plywood.go:106-117 | with two readers both at the sentinel, reader 0's line is emitted twice and reader 1's never |
| Engine.PreparedAll | plywood/plywood.go:41-43 | preparing every reader leaves one well-formed live reader per source |
| Engine.MergedLog | plywood/plywood.go:50-69 | every emitted line names a registered source |
| Engine.Pipeline | plywood/plywood.go:39-71 | what `Plywood` writes has one line per merged line |
| Engine.StartGood | plywood/plywood.go:41-51 | after preparation `activeReaders` counts the live readers, and every line is before the sentinel |
| Engine.PipelineDelivers | plywood/plywood.go:39-71 | every source's lines are written exactly once, in input order, each with its own instant and text |
| Engine.PipelineSorted | plywood/plywood.go:39-71 | when every source is in time order, the output is in time order, with untimestamped lines first |
| Engine.PipelineUnboundFirst | main.go:17-19 | when every line is before the sentinel and at or after the zero time, every line of a source whose first line no format parsed is written before every timestamped line |
| Engine.PipelineTies | plywood/plywood.go:39-71 | when every source is in time order, lines of different sources that share an instant other than the zero time are written in the order the sources were added |
| Engine.SingleLine | plywood/plywood.go:39-92 | a single source of a single line is written as that one line, with the instant and text `prepare` found in it |
| Engine.Pass | plywood/plywood.go:55-67 | a pass emits and renders the selected reader's line and changes no other reader |
| Engine.PassKeeps | plywood/plywood.go:54-68 | a pass keeps the inner loop on course to emit exactly the run, and shrinks the measure |
| Engine.PassRenders | plywood/plywood.go:59 | after a pass the pipe holds the rendering of every line emitted |
| Engine.RunKeeps | plywood/plywood.go:51-53 | a whole run keeps the outer loop on course to emit exactly the merged log |
| Engine.RunRenders | plywood/plywood.go:52-59 | after a run the pipe holds the rendering of every line emitted |
| Engine.PreparedAllAt | plywood/plywood.go:41-43 | reader k is prepared on its own lines |
| Engine.PreparedAllShows | plywood/plywood.go:41-43 | each prepared reader shows what its lines make it show |
| Engine.PreparedAllSnoc | plywood/plywood.go:41-43 | preparing one more reader appends its prepared state |
| Engine.FreshAll | plywood/plywood.go:149-156 | every reader as it is registered |
| Engine.StagedStart | plywood/plywood.go:40-41 | before any reader is prepared, every reader is as it was registered |
| Engine.StagedEnd | plywood/plywood.go:41-43 | once every reader is prepared, the readers are `PreparedAll` of the sources |
| Engine.StagedNext | plywood/plywood.go:41-43 | preparing reader k leaves the first k+1 readers prepared and the rest untouched |
| Engine.Drained | plywood/plywood.go:51 | once no reader is live, everything the merge had to emit has been emitted |
| Engine.Plywood.constructor | plywood/plywood.go:12-23 | a `Plywood` with the display flags and nothing registered |
| Engine.Plywood.AddReader | plywood/plywood.go:25-29 | appends the name and a new reader over the input, and increments `activeReaders` |
| Engine.Plywood.Register | plywood/plywood.go:26-28 | appends the name and the reader, and increments `activeReaders` |
| Engine.Plywood.AddTimeFormat | plywood/plywood.go:31-37 | appends the extractor and changes nothing else |
| Engine.Plywood.NextReader | plywood/plywood.go:104-118 | returns `Pick` of the readers' states |
| Engine.Plywood.FormatLine | plywood/plywood.go:73-92 | appends `RenderLine` of the line to the pipe and advances the baseline as `NextBaseline` says |
| Engine.Plywood.PrepareReader | plywood/plywood.go:41-43 | reader k becomes `Prepared` of what it was; the others are unchanged |
| Engine.Plywood.Begin | plywood/plywood.go:40 | the one-time start begins with every reader as it was registered |
| Engine.Plywood.Start | plywood/plywood.go:40-46 | every reader is prepared, in order: the states are `PreparedAll` of the sources' lines |
| Engine.Plywood.Read | plywood/plywood.go:39-48 | the first call writes exactly `Pipeline` of the names, the sources' lines, the formats and the display, and closes the pipe. Later calls write nothing more |
| Engine.Plywood.Advance | plywood/plywood.go:55-67 | writes the reader's line, scans it as `Step` says, counts it out if it ended, and reports whether the new line has the same instant |
| Engine.Plywood.WriteRun | plywood/plywood.go:54-68 | the inner loop emits exactly the run `RunFrom` describes and writes its rendering |
| Engine.Plywood.MergeStep | plywood/plywood.go:51-68 | one outer pass stays on course to `MergeLog`, keeps the pipe rendering it, and shrinks the measure |
| Engine.Plywood.Drain | plywood/plywood.go:51-69 | the outer loop ends with no live reader, the merged log emitted and rendered |
| Engine.Plywood.CloseWriter | plywood/plywood.go:70 | closes the pipe and changes nothing else |
| Engine.Plywood.ReadFromInputs | plywood/plywood.go:50-71 | writes the rendering of `MergeLog` of the readers, leaves the baseline that log leaves, and closes the pipe with no reader live |
| CustomFormats.RunExample | plywood/customformats.go:32-37 | a fresh `Plywood` with one format and one reader writes `Pipeline` of that one source |
| CustomFormats.Setup | plywood/customformats.go:32-35 | a new `Plywood` with the given display, one extractor and one reader over the example, not yet started |
| CustomFormats.TestCustomFormat | plywood/customformats.go:17-47 | a pattern that does not compile is reported first, then a parse error on the example line. Otherwise it reports None exactly when the written output equals the expected output, and a mismatch carrying both texts otherwise |
| CustomFormats.ExampleOutput | plywood/customformats.go:32-46 | for a one-line example the format parses, the output is the stamp, a space, `[test]`, the residual and a newline (`z [test]...` at the zero time), so the check accepts exactly that expected output |
| CustomFormats.ParsedLineOutput | plywood/customformats.go:32-41 | a one-line source that the format parses is written as its parse rendered once |

## Left out

- main.go (the command line) is not part of this model. Only the promise of its help text about untimestamped files is stated, as `Engine.PipelineUnboundFirst`. wrapper.go is not part of this model either: `DefaultPlywood` sets a field, `ExcludeOriginalTime`, that `Plywood` does not declare.
- Concurrency: the merge goroutine, `sync.Once` and `io.Pipe` are modelled sequentially. The first `Read` runs the whole merge, and the pipe is the sequence of strings written plus a closed flag. `Read`'s byte buffer, its count and its error are not modelled, and neither is the consumer's draining of the pipe.
- The byte streams of the sources: a reader is given the lines its scanner returns. `LineReader.ScanLines` models the split of a text into those lines, as `TestCustomFormat` uses it. The scanner's 64 KiB token limit and read errors are not modelled.
- Regular expressions, `time.Parse`, `Time.Year`, `Time.AddDate`, `Time.Format` and `time.Now` are parameters (the `Lib` value). Only one property of the regular-expression engine is assumed: a match is a substring of the line (`Sound`). The current year is one value for the whole run.
- `time.Time` is modelled as the instant it denotes. `==` in `readFromInputs` compares instants: Go's `==` also compares the location and the monotonic reading. The location a parsed time carries, and its effect on `Format`, are not modelled.
- Strings are sequences of characters, and Go's strings are bytes. The residual cut in `Parse` counts characters.
- The error returned by `scan` is ignored by `readFromInputs` and by the model's merge. `Step` still reports it.
- Merge.PickRule: the zero-time rule (the last live zero-time reader wins) is proved only when every live reader shows an instant at or after Go's zero time. `Merge.NegativeBeatsZero` shows an earlier instant beating a zero-time line, so `Merge.PickMinimal` and the theorems built on it assume such instants.
- Output.StampColumn: the absolute column's text is `lib.stamp` of the instant and a space. Its contract states only that the column is present exactly when absolute times are shown. The text is given by its definition alone, because `Time.Format` is a parameter. So the layout "2006-01-02 03:04:05.000" of plywood.go:80, including its 12-hour clock, is not constrained: `stamp` may be any function.
- Engine.Plywood.AddTimeFormat: requires the pattern to compile, because `regexp.MustCompile` panics otherwise.
- `ioutil.ReadAll` in `TestCustomFormat` cannot fail on the modelled pipe, so its error path is left out.
- Registering readers after the first `Read` is not modelled, because the source leaves it undefined.
- TestTwoWithGoodFormat in plywood_test.go sets `IncludeZeroBasis`, a field the code does not have. Its expected output is not modelled.
