/**
 * The `Plywood` merger: readers are registered with a name, time formats are
 * registered as regex/layout pairs, and the first `Read` prepares every
 * reader and runs the merge loop, which writes one formatted line for each
 * line the readers show to the pipe. The pipe is modelled as the sequence of strings written
 * to it, and the merge runs to completion inside the first `Read`.
 */
module Engine {
  import opened Wrappers
  import opened GoLib
  import opened Extract
  import opened LineReader
  import opened Output
  import opened Merge

  /** Every source as `prepare` leaves it, given its lines. */
  function PreparedAll(inputs: seq<seq<string>>, exs: seq<Extractor>, lib: Lib): (srcs: seq<SrcState>)
    requires Sound(lib)
    ensures |srcs| == |inputs|
    ensures AllWF(srcs) && CountActive(srcs) == |srcs|
    decreases |inputs|
  {
    if inputs == [] then []
    else [Prepared(Fresh(inputs[0]), exs, lib)] + PreparedAll(inputs[1..], exs, lib)
  }

  /** The lines the merge loop hands to `formatLine`, from the sources'
      lines. */
  function MergedLog(inputs: seq<seq<string>>, exs: seq<Extractor>, lib: Lib): (log: seq<Emission>)
    requires Sound(lib)
    ensures forall k | 0 <= k < |log| :: log[k].reader < |inputs|
  {
    MergeLog(PreparedAll(inputs, exs, lib), |inputs|, lib)
  }

  /** Everything `Plywood` writes to its pipe, from the reader names, their
      lines, the time formats and the display flags. */
  function Pipeline(names: seq<string>, inputs: seq<seq<string>>, exs: seq<Extractor>, disp: Display, lib: Lib): (out: seq<string>)
    requires Sound(lib) && |names| == |inputs|
    ensures |out| == |MergedLog(inputs, exs, lib)|
  {
    RenderFrom(names, MergedLog(inputs, exs, lib), disp, ZeroTime, lib)
  }

  /** Each source's lines, every one of them before the sentinel. */
  predicate Timely(inputs: seq<seq<string>>, exs: seq<Extractor>, lib: Lib)
    requires Sound(lib)
  {
    forall k, e | 0 <= k < |inputs| && e in Entries(inputs[k], exs, lib) :: e.time < FarFuture
  }

  lemma StartGood(inputs: seq<seq<string>>, exs: seq<Extractor>, lib: Lib)
    requires Sound(lib) && Timely(inputs, exs, lib)
    ensures Good(PreparedAll(inputs, exs, lib), |inputs|, lib)
  {
    var srcs := PreparedAll(inputs, exs, lib);
    PreparedAllShows(inputs, exs, lib);
    forall j, e | 0 <= j < |srcs| && e in Pending(srcs[j], lib)
      ensures e.time < FarFuture
    {
      assert e in Entries(inputs[j], exs, lib);
    }
  }

  /** Every source's lines come out exactly once, in input order, each with
      its own instant (as long as none is at or after the sentinel). */
  lemma PipelineDelivers(inputs: seq<seq<string>>, exs: seq<Extractor>, lib: Lib)
    requires Sound(lib) && Timely(inputs, exs, lib)
    ensures forall k | 0 <= k < |inputs| :: Project(MergedLog(inputs, exs, lib), k) == Entries(inputs[k], exs, lib)
  {
    StartGood(inputs, exs, lib);
    PreparedAllShows(inputs, exs, lib);
    MergeProject(PreparedAll(inputs, exs, lib), |inputs|, lib);
  }

  /** When every source's lines are in time order, the merged output is in
      time order; lines without a timestamp come first. */
  lemma PipelineSorted(inputs: seq<seq<string>>, exs: seq<Extractor>, lib: Lib)
    requires Sound(lib) && Timely(inputs, exs, lib)
    requires forall k | 0 <= k < |inputs| :: Chrono(Entries(inputs[k], exs, lib))
    requires forall k, e | 0 <= k < |inputs| && e in Entries(inputs[k], exs, lib) :: ZeroTime <= e.time
    ensures LogSorted(MergedLog(inputs, exs, lib))
  {
    StartGood(inputs, exs, lib);
    var srcs := PreparedAll(inputs, exs, lib);
    PreparedAllShows(inputs, exs, lib);
    assert AllChrono(srcs, lib);
    assert PendingFrom(srcs, ZeroTime, lib) by {
      forall j, e | 0 <= j < |srcs| && e in Pending(srcs[j], lib)
        ensures ZeroTime <= e.time
      {
        assert e in Entries(inputs[j], exs, lib);
      }
    }
    MergeSorted(srcs, |inputs|, lib);
  }

  /** With every instant at or after the zero time, every line of a source
      that `prepare` left without an extractor comes out before every line
      with a timestamp, whatever the order within each source. */
  lemma PipelineUnboundFirst(inputs: seq<seq<string>>, exs: seq<Extractor>, lib: Lib)
    requires Sound(lib) && Timely(inputs, exs, lib)
    requires forall k, e | 0 <= k < |inputs| && e in Entries(inputs[k], exs, lib) :: ZeroTime <= e.time
    ensures var log := MergedLog(inputs, exs, lib);
            forall a, b | 0 <= a < |log| && 0 <= b < |log|
                          && Prepared(Fresh(inputs[log[a].reader]), exs, lib).extractor.None?
                          && log[b].time != ZeroTime :: a < b
  {
    StartGood(inputs, exs, lib);
    var srcs := PreparedAll(inputs, exs, lib);
    var log := MergedLog(inputs, exs, lib);
    PreparedAllShows(inputs, exs, lib);
    assert PendingFrom(srcs, ZeroTime, lib) by {
      forall j, e | 0 <= j < |srcs| && e in Pending(srcs[j], lib)
        ensures ZeroTime <= e.time
      {
        assert e in Entries(inputs[j], exs, lib);
      }
    }
    MergeUnboundFirst(srcs, |inputs|, lib);
    forall a | 0 <= a < |log|
      ensures Prepared(Fresh(inputs[log[a].reader]), exs, lib) == srcs[log[a].reader]
    {
      PreparedAllAt(inputs, exs, lib, log[a].reader);
    }
  }

  /** When every source's lines are in time order (as for `PipelineSorted`),
      lines of different sources that share an instant other than the zero
      time come out grouped by the order the sources were added. */
  lemma PipelineTies(inputs: seq<seq<string>>, exs: seq<Extractor>, lib: Lib)
    requires Sound(lib) && Timely(inputs, exs, lib)
    requires forall k | 0 <= k < |inputs| :: Chrono(Entries(inputs[k], exs, lib))
    requires forall k, e | 0 <= k < |inputs| && e in Entries(inputs[k], exs, lib) :: ZeroTime <= e.time
    ensures var log := MergedLog(inputs, exs, lib);
            forall a, b | 0 <= a < b < |log| && log[a].time == log[b].time && log[a].time != ZeroTime
                          && log[a].reader != log[b].reader :: log[a].reader < log[b].reader
  {
    StartGood(inputs, exs, lib);
    var srcs := PreparedAll(inputs, exs, lib);
    PreparedAllShows(inputs, exs, lib);
    assert AllChrono(srcs, lib);
    assert PendingFrom(srcs, ZeroTime, lib) by {
      forall j, e | 0 <= j < |srcs| && e in Pending(srcs[j], lib)
        ensures ZeroTime <= e.time
      {
        assert e in Entries(inputs[j], exs, lib);
      }
    }
    MergeTies(srcs, |inputs|, lib);
  }

  /** A single source of a single line comes out as that one line, with
      whatever instant and text `prepare` found in it. */
  lemma SingleLine(name: string, line: string, exs: seq<Extractor>, disp: Display, lib: Lib)
    requires Sound(lib)
    ensures var s := Prepared(Fresh([line]), exs, lib);
            Pipeline([name], [[line]], exs, disp, lib) == [RenderLine(name, PeekTime(s), s.text, disp, ZeroTime, lib)]
  {
    var s := Prepared(Fresh([line]), exs, lib);
    assert PreparedAll([[line]], exs, lib) == [s];
    assert Pick([s]) == 0;
    RunFromStep([s], 1, 0, lib);
    var log := MergedLog([[line]], exs, lib);
    assert log == [Emission(0, PeekTime(s), s.text)];
    assert RenderFrom([name], log, disp, ZeroTime, lib) == [RenderLine(name, PeekTime(s), s.text, disp, ZeroTime, lib)];
  }

  /** The inner loop of `readFromInputs` as a value: the readers, the
      count of live readers, `moreLines`, the lines emitted so far, what the
      pipe holds and the baseline of relative times. */
  datatype Progress = Progress(srcs: seq<SrcState>, active: int, more: bool, run: seq<Emission>, out: seq<string>, baseline: Instant)

  /** One pass of the inner loop on reader i: format its line, scan, count
      the reader out if it has ended, and go on only while the new line has
      the same instant. */
  function Pass(names: seq<string>, disp: Display, lib: Lib, i: nat, p: Progress): (q: Progress)
    requires Sound(lib) && i < |p.srcs| && i < |names|
    ensures q.run == p.run + [Emission(i, PeekTime(p.srcs[i]), p.srcs[i].text)]
    ensures q.out == p.out + [RenderLine(names[i], PeekTime(p.srcs[i]), p.srcs[i].text, disp, p.baseline, lib)]
    ensures |q.srcs| == |p.srcs| && forall k | 0 <= k < |p.srcs| && k != i :: q.srcs[k] == p.srcs[k]
  {
    var s := p.srcs[i];
    var r := Step(s, lib);
    var when := PeekTime(s);
    Progress(p.srcs[i := r.next], if r.next.active then p.active else p.active - 1,
             r.more && PeekTime(r.next) == when, p.run + [Emission(i, when, s.text)],
             p.out + [RenderLine(names[i], when, s.text, disp, p.baseline, lib)], NextBaseline(p.baseline, when, disp))
  }

  /** The pipe holds what was there before followed by the rendering of
      `run`, and the baseline is the one `run` leaves. */
  ghost predicate Rendered(names: seq<string>, disp: Display, lib: Lib, w0: seq<string>, b0: Instant, p: Progress)
  {
    && NamesCover(names, p.run)
    && p.out == w0 + RenderFrom(names, p.run, disp, b0, lib)
    && p.baseline == BaselineAfter(p.run, disp, b0)
  }

  /** What the inner loop keeps: the run so far followed by what is left to
      emit (the rest of the run while `moreLines`, the rest of the merge
      after) is the whole run from the start, and the merge measure has not
      grown (has shrunk once the run is over). */
  ghost predicate OnTrack(lib: Lib, i: nat, run0: seq<Emission>, m0: int, p: Progress)
  {
    && Sound(lib) && AllWF(p.srcs) && 0 <= p.active <= |p.srcs| && i < |p.srcs|
    && (p.more ==> 1 <= p.active)
    && run0 == p.run + (if p.more then RunFrom(p.srcs, p.active, i, lib) else MergeLog(p.srcs, p.active, lib))
    && (if p.more then Measure(p.srcs, p.active) <= m0 else Measure(p.srcs, p.active) < m0)
  }

  /** A pass keeps the inner loop on track and shrinks the merge measure. */
  lemma PassKeeps(names: seq<string>, disp: Display, lib: Lib, i: nat, run0: seq<Emission>, m0: int, p: Progress)
    requires OnTrack(lib, i, run0, m0, p) && p.more && i < |names|
    ensures OnTrack(lib, i, run0, m0, Pass(names, disp, lib, i, p))
    ensures Measure(Pass(names, disp, lib, i, p).srcs, Pass(names, disp, lib, i, p).active) < Measure(p.srcs, p.active)
  {
    var q := Pass(names, disp, lib, i, p);
    var e := Emission(i, PeekTime(p.srcs[i]), p.srcs[i].text);
    RunFromStep(p.srcs, p.active, i, lib);
    if q.more {
      var tail := RunFrom(q.srcs, q.active, i, lib);
      assert RunFrom(p.srcs, p.active, i, lib) == [e] + tail;
      AppendAssoc(p.run, [e], tail);
    } else {
      var tail := MergeLog(q.srcs, q.active, lib);
      assert RunFrom(p.srcs, p.active, i, lib) == [e] + tail;
      AppendAssoc(p.run, [e], tail);
    }
  }

  /** A pass renders the line it emits. */
  lemma PassRenders(names: seq<string>, disp: Display, lib: Lib, i: nat, w0: seq<string>, b0: Instant, p: Progress)
    requires Sound(lib) && i < |p.srcs| && i < |names|
    requires Rendered(names, disp, lib, w0, b0, p)
    ensures Rendered(names, disp, lib, w0, b0, Pass(names, disp, lib, i, p))
  {
    var e := Emission(i, PeekTime(p.srcs[i]), p.srcs[i].text);
    RenderSnoc(names, p.run, e, disp, b0, lib);
  }

  /** A whole run of reader i takes the merge from p to q: `run` is what the
      inner loop emits and q is where the merge goes on from. */
  ghost predicate Ran(lib: Lib, i: nat, p: Progress, run: seq<Emission>, q: Progress)
  {
    && Sound(lib) && AllWF(p.srcs) && 1 <= p.active <= |p.srcs| && i < |p.srcs|
    && AllWF(q.srcs) && 0 <= q.active <= |q.srcs|
    && RunFrom(p.srcs, p.active, i, lib) == run + MergeLog(q.srcs, q.active, lib)
    && Measure(q.srcs, q.active) < Measure(p.srcs, p.active)
    && q.run == p.run + run
  }

  /** The pipe gains the rendering of `run`. */
  ghost predicate RanRenders(names: seq<string>, disp: Display, lib: Lib, p: Progress, run: seq<Emission>, q: Progress)
  {
    && NamesCover(names, run)
    && q.out == p.out + RenderFrom(names, run, disp, p.baseline, lib)
    && q.baseline == BaselineAfter(run, disp, p.baseline)
  }

  /** What the outer loop of `readFromInputs` keeps: the lines emitted so
      far followed by the rest of the merge are the whole merge. */
  ghost predicate MergeOnTrack(lib: Lib, log0: seq<Emission>, p: Progress)
  {
    && Sound(lib) && AllWF(p.srcs) && 0 <= p.active <= |p.srcs|
    && log0 == p.run + MergeLog(p.srcs, p.active, lib)
  }

  /** Running the reader the merge selects, to the end of its run, keeps the
      outer loop on track. */
  lemma RunKeeps(lib: Lib, log0: seq<Emission>, p: Progress, run: seq<Emission>, q: Progress)
    requires MergeOnTrack(lib, log0, p)
    requires Ran(lib, Pick(p.srcs), p, run, q)
    ensures MergeOnTrack(lib, log0, q)
  {
    assert MergeLog(p.srcs, p.active, lib) == run + MergeLog(q.srcs, q.active, lib);
    AppendAssoc(p.run, run, MergeLog(q.srcs, q.active, lib));
  }

  /** ... and keeps the pipe holding the rendering of what was emitted. */
  lemma RunRenders(names: seq<string>, disp: Display, lib: Lib, w0: seq<string>, b0: Instant,
                   p: Progress, run: seq<Emission>, q: Progress)
    requires Rendered(names, disp, lib, w0, b0, p)
    requires RanRenders(names, disp, lib, p, run, q) && q.run == p.run + run
    ensures Rendered(names, disp, lib, w0, b0, q)
  {
    RenderAppend(names, p.run, run, disp, b0, lib);
    BaselineAppend(p.run, run, disp, b0);
    AppendAssoc(w0, RenderFrom(names, p.run, disp, b0, lib), RenderFrom(names, run, disp, p.baseline, lib));
  }

  /** Source k is prepared on its own lines. */
  lemma {:induction false} PreparedAllAt(inputs: seq<seq<string>>, exs: seq<Extractor>, lib: Lib, k: nat)
    requires Sound(lib) && k < |inputs|
    ensures PreparedAll(inputs, exs, lib)[k] == Prepared(Fresh(inputs[k]), exs, lib)
    decreases k
  {
    if k > 0 {
      PreparedAllAt(inputs[1..], exs, lib, k - 1);
    }
  }

  /** What each prepared source shows is what its lines make it show. */
  lemma PreparedAllShows(inputs: seq<seq<string>>, exs: seq<Extractor>, lib: Lib)
    requires Sound(lib)
    ensures forall k | 0 <= k < |inputs| :: Pending(PreparedAll(inputs, exs, lib)[k], lib) == Entries(inputs[k], exs, lib)
  {
    forall k | 0 <= k < |inputs|
      ensures Pending(PreparedAll(inputs, exs, lib)[k], lib) == Entries(inputs[k], exs, lib)
    {
      PreparedAllAt(inputs, exs, lib, k);
    }
  }

  lemma {:induction false} PreparedAllSnoc(inputs: seq<seq<string>>, input: seq<string>, exs: seq<Extractor>, lib: Lib)
    requires Sound(lib)
    ensures PreparedAll(inputs + [input], exs, lib) == PreparedAll(inputs, exs, lib) + [Prepared(Fresh(input), exs, lib)]
    decreases |inputs|
  {
    if inputs != [] {
      assert (inputs + [input])[1..] == inputs[1..] + [input];
      PreparedAllSnoc(inputs[1..], input, exs, lib);
    }
  }

  /** Every source as `newTimedLineReader` leaves it. */
  function FreshAll(inputs: seq<seq<string>>): (srcs: seq<SrcState>)
    ensures |srcs| == |inputs| && forall k | 0 <= k < |inputs| :: srcs[k] == Fresh(inputs[k])
    decreases |inputs|
  {
    if inputs == [] then [] else [Fresh(inputs[0])] + FreshAll(inputs[1..])
  }

  /** The readers while `Read` prepares them: the first k prepared, the
      others untouched. */
  ghost function Staged(inputs: seq<seq<string>>, exs: seq<Extractor>, lib: Lib, k: nat): seq<SrcState>
    requires Sound(lib) && k <= |inputs|
  {
    PreparedAll(inputs[..k], exs, lib) + FreshAll(inputs[k..])
  }

  /** Before any reader is prepared, every reader is as registered. */
  lemma StagedStart(inputs: seq<seq<string>>, exs: seq<Extractor>, lib: Lib)
    requires Sound(lib)
    ensures Staged(inputs, exs, lib, 0) == FreshAll(inputs)
  {
    assert inputs[..0] == [] && inputs[0..] == inputs;
  }

  /** Once every reader is prepared, the readers are `PreparedAll`. */
  lemma StagedEnd(inputs: seq<seq<string>>, exs: seq<Extractor>, lib: Lib)
    requires Sound(lib)
    ensures Staged(inputs, exs, lib, |inputs|) == PreparedAll(inputs, exs, lib)
  {
    assert inputs[..|inputs|] == inputs && inputs[|inputs|..] == [];
  }

  /** Preparing reader k moves the boundary one reader on. */
  lemma StagedNext(inputs: seq<seq<string>>, exs: seq<Extractor>, lib: Lib, k: nat)
    requires Sound(lib) && k < |inputs|
    ensures |Staged(inputs, exs, lib, k)| == |inputs|
    ensures Staged(inputs, exs, lib, k)[k] == Fresh(inputs[k])
    ensures Staged(inputs, exs, lib, k)[k := Prepared(Fresh(inputs[k]), exs, lib)] == Staged(inputs, exs, lib, k + 1)
  {
    var done := PreparedAll(inputs[..k], exs, lib);
    var rest := FreshAll(inputs[k + 1..]);
    assert inputs[..k + 1] == inputs[..k] + [inputs[k]];
    PreparedAllSnoc(inputs[..k], inputs[k], exs, lib);
    assert FreshAll(inputs[k..]) == [Fresh(inputs[k])] + rest by {
      assert inputs[k..][1..] == inputs[k + 1..];
    }
    ReplaceMiddle(done, Fresh(inputs[k]), Prepared(Fresh(inputs[k]), exs, lib), rest);
  }

  lemma ReplaceMiddle<T>(a: seq<T>, x: T, y: T, b: seq<T>)
    ensures (a + ([x] + b))[|a|] == x
    ensures (a + ([x] + b))[|a| := y] == (a + [y]) + b
  {
  }

  /** Once no reader is live, everything the merge had to emit has been. */
  lemma Drained(lib: Lib, log0: seq<Emission>, p: Progress)
    requires MergeOnTrack(lib, log0, p) && p.active == 0
    ensures p.run == log0
  {
    assert MergeLog(p.srcs, p.active, lib) == [];
    assert log0 == p.run + [];
  }

  lemma AppendAssoc<T>(a: seq<T>, b: seq<T>, c: seq<T>)
    ensures a + (b + c) == (a + b) + c
  {
  }

  function LinesOf(rs: seq<TimedLineReader>): (inputs: seq<seq<string>>)
    ensures |inputs| == |rs| && forall k | 0 <= k < |rs| :: inputs[k] == rs[k].lines
    decreases |rs|
  {
    if rs == [] then [] else [rs[0].lines] + LinesOf(rs[1..])
  }

  class Plywood {
    var includeRelativeTime: bool
    var includeAbsoluteTime: bool
    var readerNames: seq<string>
    var lineReaders: seq<TimedLineReader>
    var timeExtractors: seq<Extractor>
    var activeReaders: int
    var firstLineTime: Instant
    /** The readers as values, kept in step with them by `Valid`. */
    ghost var states: seq<SrcState>
    /** Whether the one-time start in `Read` has run. */
    var started: bool
    /** What has been written to the pipe, one string per `formatLine`. */
    var written: seq<string>
    /** Whether the writing end of the pipe has been closed. */
    var closed: bool

    ghost predicate Valid()
      reads this, lineReaders
    {
      && |readerNames| == |lineReaders|
      && (forall a, b | 0 <= a < b < |lineReaders| :: lineReaders[a] != lineReaders[b])
      && |states| == |lineReaders|
      && (forall k | 0 <= k < |lineReaders| :: lineReaders[k].Valid() && lineReaders[k].State() == states[k])
      && 0 <= activeReaders <= |lineReaders|
      && (!started ==>
            && activeReaders == |lineReaders|
            && (forall k | 0 <= k < |lineReaders| :: lineReaders[k].Untouched())
            && firstLineTime == ZeroTime && written == [] && !closed)
    }

    /** The readers as values. */
    ghost function States(): (ss: seq<SrcState>)
      reads this, lineReaders
      requires Valid()
      ensures AllWF(ss) && |ss| == |lineReaders|
      ensures forall k | 0 <= k < |ss| :: ss[k] == lineReaders[k].State()
    {
      states
    }

    function Disp(): Display
      reads this
    {
      Display(includeAbsoluteTime, includeRelativeTime)
    }

    /** A `Plywood` with the given display flags and nothing registered. */
    constructor (absolute: bool, relative: bool)
      ensures Valid() && !started
      ensures includeAbsoluteTime == absolute && includeRelativeTime == relative
      ensures readerNames == [] && lineReaders == [] && timeExtractors == []
    {
      includeRelativeTime := relative;
      includeAbsoluteTime := absolute;
      readerNames := [];
      lineReaders := [];
      timeExtractors := [];
      states := [];
      activeReaders := 0;
      firstLineTime := ZeroTime;
      started := false;
      written := [];
      closed := false;
    }

    /** `AddReader`: register a named source as a new, live reader. */
    method AddReader(name: string, input: seq<string>)
      requires Valid()
      modifies this
      ensures Valid()
      ensures readerNames == old(readerNames) + [name]
      ensures |lineReaders| == |old(lineReaders)| + 1 && lineReaders[..|old(lineReaders)|] == old(lineReaders)
      ensures var r := lineReaders[|old(lineReaders)|]; fresh(r) && r.lines == input && r.Valid() && r.State() == Fresh(input)
      ensures activeReaders == old(activeReaders) + 1
      ensures timeExtractors == old(timeExtractors) && firstLineTime == old(firstLineTime)
      ensures started == old(started) && written == old(written) && closed == old(closed) && Disp() == old(Disp())
    {
      var r := new TimedLineReader(input);
      Register(name, r);
      assert lineReaders[..|old(lineReaders)|] == old(lineReaders);
    }

    /** The appends of `AddReader`, for a reader nobody else holds. */
    method Register(name: string, r: TimedLineReader)
      requires Valid() && r.Valid() && r.Untouched() && r !in lineReaders
      modifies this
      ensures Valid()
      ensures readerNames == old(readerNames) + [name] && lineReaders == old(lineReaders) + [r]
      ensures states == old(states) + [r.State()] && activeReaders == old(activeReaders) + 1
      ensures timeExtractors == old(timeExtractors) && firstLineTime == old(firstLineTime)
      ensures started == old(started) && written == old(written) && closed == old(closed) && Disp() == old(Disp())
    {
      readerNames := readerNames + [name];
      lineReaders := lineReaders + [r];
      states := states + [r.State()];
      activeReaders := activeReaders + 1;
    }

    /** `AddTimeFormat`: append an extractor. The regular expression must
        compile (`MustCompile` panics otherwise). */
    method AddTimeFormat(regex: string, layout: string, lib: Lib)
      requires Valid() && lib.compiles(regex)
      modifies this
      ensures Valid()
      ensures timeExtractors == old(timeExtractors) + [Extractor(regex, layout)]
      ensures readerNames == old(readerNames) && lineReaders == old(lineReaders) && activeReaders == old(activeReaders)
      ensures firstLineTime == old(firstLineTime) && started == old(started) && written == old(written)
      ensures closed == old(closed) && Disp() == old(Disp()) && states == old(states)
    {
      timeExtractors := timeExtractors + [Extractor(regex, layout)];
    }

    /** `nextReader`. */
    method NextReader() returns (readerIndex: nat)
      requires Valid()
      ensures readerIndex == Pick(states)
    {
      ghost var ss := States();
      readerIndex := 0;
      var minTime := FarFuture;
      var k := 0;
      while k < |lineReaders|
        invariant 0 <= k <= |lineReaders|
        invariant PickScan(ss, k) == Choice(readerIndex, minTime)
      {
        var r := lineReaders[k];
        if r.active {
          var readerTime := r.LogTime();
          if readerTime == ZeroTime || readerTime < minTime {
            minTime := r.LogTime();
            readerIndex := k;
          }
        }
        k := k + 1;
      }
    }

    /** `formatLine`: write one line to the pipe, setting the baseline on
        the first timestamped line when relative times are shown. */
    method FormatLine(readerIndex: nat, when: Instant, line: string, lib: Lib)
      requires Valid() && started && readerIndex < |readerNames|
      modifies this
      ensures readerNames == old(readerNames) && lineReaders == old(lineReaders) && activeReaders == old(activeReaders)
      ensures timeExtractors == old(timeExtractors) && started == old(started) && closed == old(closed)
      ensures Disp() == old(Disp()) && states == old(states)
      ensures Valid()
      ensures written == old(written) + [RenderLine(readerNames[readerIndex], when, line, Disp(), old(firstLineTime), lib)]
      ensures firstLineTime == NextBaseline(old(firstLineTime), when, Disp())
    {
      var name := readerNames[readerIndex];
      var logLine: string;
      if when == ZeroTime {
        logLine := "z [" + name + "]" + line + "\n";
      } else {
        var stampColumn := "";
        if includeAbsoluteTime {
          stampColumn := lib.stamp(when) + " ";
        }
        var offsetColumn := "";
        if includeRelativeTime {
          if firstLineTime == ZeroTime {
            firstLineTime := when;
          }
          var offset := FormatDuration(Sub(when, firstLineTime));
          offsetColumn := "[" + offset + "]";
        }
        logLine := stampColumn + offsetColumn + Tail(name, line);
      }
      written := written + [logLine];
    }

    /** `prepare` on the reader at index k, once the start has begun. */
    method PrepareReader(k: nat, lib: Lib)
      requires Valid() && started && Sound(lib) && k < |lineReaders|
      modifies this, lineReaders[k]
      ensures readerNames == old(readerNames) && lineReaders == old(lineReaders) && timeExtractors == old(timeExtractors)
      ensures activeReaders == old(activeReaders) && firstLineTime == old(firstLineTime)
      ensures started == old(started) && written == old(written) && closed == old(closed) && Disp() == old(Disp())
      ensures Valid()
      ensures states == old(states)[k := Prepared(old(states[k]), timeExtractors, lib)]
    {
      var reader := lineReaders[k];
      label Preparing:
      reader.Prepare(timeExtractors, lib);
      forall j | 0 <= j < |lineReaders| && j != k
        ensures lineReaders[j].Valid() && lineReaders[j].State() == states[j]
      {
        assert lineReaders[j] != reader;
        assert unchanged@Preparing(lineReaders[j]);
      }
      states := states[k := reader.State()];
    }

    /** The one-time start begins: every reader is still as
        `newTimedLineReader` left it. */
    method Begin()
      requires Valid() && !started
      modifies this
      ensures Valid() && started
      ensures readerNames == old(readerNames) && lineReaders == old(lineReaders) && timeExtractors == old(timeExtractors)
      ensures states == old(states) && activeReaders == old(activeReaders) && firstLineTime == old(firstLineTime)
      ensures written == old(written) && closed == old(closed) && Disp() == old(Disp())
      ensures activeReaders == |lineReaders| && firstLineTime == ZeroTime && written == [] && !closed
      ensures states == FreshAll(LinesOf(lineReaders))
    {
      forall j | 0 <= j < |lineReaders|
        ensures states[j] == Fresh(lineReaders[j].lines)
      {
        assert lineReaders[j].Untouched();
        assert lineReaders[j].lines[0..] == lineReaders[j].lines;
      }
      assert states == FreshAll(LinesOf(lineReaders));
      started := true;
    }

    /** The body of the one-time start in `Read`: prepare every reader, in
        order. */
    method Start(lib: Lib)
      requires Valid() && !started && Sound(lib)
      modifies this, lineReaders
      ensures readerNames == old(readerNames) && lineReaders == old(lineReaders) && timeExtractors == old(timeExtractors)
      ensures Disp() == old(Disp())
      ensures Valid() && started
      ensures states == PreparedAll(LinesOf(lineReaders), timeExtractors, lib)
      ensures activeReaders == |lineReaders| && firstLineTime == ZeroTime && written == [] && !closed
    {
      ghost var inputs := LinesOf(lineReaders);
      Begin();
      StagedStart(inputs, timeExtractors, lib);
      var k := 0;
      while k < |lineReaders|
        invariant 0 <= k <= |lineReaders|
        invariant Valid() && started
        invariant readerNames == old(readerNames) && lineReaders == old(lineReaders) && timeExtractors == old(timeExtractors)
        invariant Disp() == old(Disp())
        invariant activeReaders == |lineReaders| && firstLineTime == ZeroTime && written == [] && !closed
        invariant states == Staged(inputs, timeExtractors, lib, k)
      {
        StagedNext(inputs, timeExtractors, lib, k);
        PrepareReader(k, lib);
        k := k + 1;
      }
      StagedEnd(inputs, timeExtractors, lib);
    }

    /** `Read`: the first call prepares every reader and runs the merge,
        which writes every line to the pipe and closes it; later calls only
        drain the pipe. */
    method Read(lib: Lib)
      requires Valid() && Sound(lib)
      modifies this, lineReaders
      ensures readerNames == old(readerNames) && lineReaders == old(lineReaders) && timeExtractors == old(timeExtractors)
      ensures Disp() == old(Disp())
      ensures Valid() && started
      ensures old(started) ==> written == old(written) && closed == old(closed)
      ensures !old(started) ==>
                written == Pipeline(readerNames, LinesOf(lineReaders), timeExtractors, Disp(), lib) && closed
    {
      if started {
        return;
      }
      Start(lib);
      ReadFromInputs(lib);
    }

    /** One pass of the inner loop of `readFromInputs`: write the selected
        reader's line, scan, count the reader out if it has ended, and
        report whether the new line carries the same instant. */
    method Advance(readerIndex: nat, lib: Lib) returns (moreLines: bool)
      requires Valid() && started && Sound(lib)
      requires 1 <= activeReaders && readerIndex < |lineReaders|
      modifies this, lineReaders[readerIndex]
      ensures readerNames == old(readerNames) && lineReaders == old(lineReaders) && timeExtractors == old(timeExtractors)
      ensures started == old(started) && closed == old(closed) && Disp() == old(Disp())
      ensures Valid()
      ensures var s := old(states[readerIndex]);
              var r := Step(s, lib);
              && states == old(states)[readerIndex := r.next]
              && activeReaders == (if r.next.active then old(activeReaders) else old(activeReaders) - 1)
              && moreLines == (r.more && PeekTime(r.next) == PeekTime(s))
              && written == old(written) + [RenderLine(readerNames[readerIndex], PeekTime(s), s.text, Disp(), old(firstLineTime), lib)]
              && firstLineTime == NextBaseline(old(firstLineTime), PeekTime(s), Disp())
    {
      var reader := lineReaders[readerIndex];
      var when := reader.LogTime();
      var line := reader.LogText();
      FormatLine(readerIndex, when, line, lib);
      label Scanning:
      var scanErr;
      moreLines, scanErr := reader.Scan(lib);
      forall k | 0 <= k < |lineReaders| && k != readerIndex
        ensures lineReaders[k].Valid() && lineReaders[k].State() == states[k]
      {
        assert lineReaders[k] != reader;
        assert unchanged@Scanning(lineReaders[k]);
      }
      states := states[readerIndex := reader.State()];
      if !reader.active {
        activeReaders := activeReaders - 1;
      }
      if moreLines {
        moreLines := when == reader.LogTime();
      }
    }

    /** The inner loop of `readFromInputs`: write the selected reader's
        lines for as long as each new line carries the instant of the one
        before it. */
    method WriteRun(readerIndex: nat, lib: Lib, ghost p0: Progress) returns (ghost run: seq<Emission>, ghost q: Progress)
      requires Valid() && started && Sound(lib)
      requires 1 <= activeReaders && readerIndex < |lineReaders|
      requires states == p0.srcs && activeReaders == p0.active && written == p0.out && firstLineTime == p0.baseline
      modifies this, lineReaders
      ensures readerNames == old(readerNames) && lineReaders == old(lineReaders) && timeExtractors == old(timeExtractors)
      ensures started == old(started) && closed == old(closed) && Disp() == old(Disp())
      ensures Valid()
      ensures states == q.srcs && activeReaders == q.active && written == q.out && firstLineTime == q.baseline
      ensures Ran(lib, readerIndex, p0, run, q) && RanRenders(readerNames, Disp(), lib, p0, run, q)
    {
      ghost var names, disp := readerNames, Disp();
      ghost var run0 := RunFrom(states, activeReaders, readerIndex, lib);
      ghost var m0 := Measure(states, activeReaders);
      ghost var p := Progress(states, activeReaders, true, [], p0.out, p0.baseline);
      var moreLines := true;
      while moreLines
        invariant Valid() && started
        invariant readerNames == names && lineReaders == old(lineReaders) && timeExtractors == old(timeExtractors)
        invariant closed == old(closed) && Disp() == disp
        invariant OnTrack(lib, readerIndex, run0, m0, p) && Rendered(names, disp, lib, p0.out, p0.baseline, p)
        invariant states == p.srcs && activeReaders == p.active && moreLines == p.more
        invariant written == p.out && firstLineTime == p.baseline
        decreases Measure(p.srcs, p.active)
      {
        PassKeeps(names, disp, lib, readerIndex, run0, m0, p);
        PassRenders(names, disp, lib, readerIndex, p0.out, p0.baseline, p);
        p := Pass(names, disp, lib, readerIndex, p);
        moreLines := Advance(readerIndex, lib);
      }
      run := p.run;
      q := Progress(p.srcs, p.active, false, p0.run + run, p.out, p.baseline);
    }

    /** One pass of the outer loop of `readFromInputs`: select a reader and
        write its run; the merge stays on track towards `log0` and the pipe
        keeps holding the rendering of what has been emitted. */
    method MergeStep(lib: Lib, ghost log0: seq<Emission>, ghost w0: seq<string>, ghost b0: Instant, ghost p: Progress)
      returns (ghost q: Progress)
      requires Valid() && started && Sound(lib) && activeReaders > 0
      requires states == p.srcs && activeReaders == p.active && written == p.out && firstLineTime == p.baseline
      requires MergeOnTrack(lib, log0, p) && Rendered(readerNames, Disp(), lib, w0, b0, p)
      modifies this, lineReaders
      ensures readerNames == old(readerNames) && lineReaders == old(lineReaders) && timeExtractors == old(timeExtractors)
      ensures started == old(started) && closed == old(closed) && Disp() == old(Disp())
      ensures Valid()
      ensures states == q.srcs && activeReaders == q.active && written == q.out && firstLineTime == q.baseline
      ensures MergeOnTrack(lib, log0, q) && Rendered(readerNames, Disp(), lib, w0, b0, q)
      ensures Measure(q.srcs, q.active) < Measure(p.srcs, p.active)
    {
      var readerIndex := NextReader();
      ghost var run;
      run, q := WriteRun(readerIndex, lib, p);
      RunKeeps(lib, log0, p, run, q);
      RunRenders(readerNames, Disp(), lib, w0, b0, p, run, q);
    }

    /** The outer loop of `readFromInputs`: merge until no reader is live. */
    method Drain(lib: Lib, ghost log0: seq<Emission>, ghost w0: seq<string>, ghost b0: Instant, ghost p0: Progress)
      returns (ghost p: Progress)
      requires Valid() && started && Sound(lib)
      requires states == p0.srcs && activeReaders == p0.active && written == p0.out && firstLineTime == p0.baseline
      requires MergeOnTrack(lib, log0, p0) && Rendered(readerNames, Disp(), lib, w0, b0, p0)
      modifies this, lineReaders
      ensures readerNames == old(readerNames) && lineReaders == old(lineReaders) && timeExtractors == old(timeExtractors)
      ensures started == old(started) && closed == old(closed) && Disp() == old(Disp())
      ensures Valid()
      ensures states == p.srcs && activeReaders == p.active && written == p.out && firstLineTime == p.baseline
      ensures MergeOnTrack(lib, log0, p) && Rendered(readerNames, Disp(), lib, w0, b0, p)
      ensures activeReaders == 0
    {
      p := p0;
      while activeReaders > 0
        invariant Valid() && started
        invariant readerNames == old(readerNames) && lineReaders == old(lineReaders) && timeExtractors == old(timeExtractors)
        invariant closed == old(closed) && Disp() == old(Disp())
        invariant states == p.srcs && activeReaders == p.active && written == p.out && firstLineTime == p.baseline
        invariant MergeOnTrack(lib, log0, p) && Rendered(readerNames, Disp(), lib, w0, b0, p)
        decreases Measure(p.srcs, p.active)
      {
        p := MergeStep(lib, log0, w0, b0, p);
      }
    }

    /** Close the writing end of the pipe. */
    method CloseWriter()
      requires Valid() && started
      modifies this
      ensures Valid() && closed
      ensures readerNames == old(readerNames) && lineReaders == old(lineReaders) && timeExtractors == old(timeExtractors)
      ensures states == old(states) && activeReaders == old(activeReaders) && firstLineTime == old(firstLineTime)
      ensures written == old(written) && started == old(started) && Disp() == old(Disp())
    {
      closed := true;
    }

    /** `readFromInputs`: merge until no reader is live, then close the
        pipe. */
    method ReadFromInputs(lib: Lib)
      requires Valid() && started && Sound(lib)
      modifies this, lineReaders
      ensures readerNames == old(readerNames) && lineReaders == old(lineReaders) && timeExtractors == old(timeExtractors)
      ensures started == old(started) && Disp() == old(Disp())
      ensures Valid()
      ensures written == old(written) + RenderFrom(readerNames, MergeLog(old(states), old(activeReaders), lib), Disp(), old(firstLineTime), lib)
      ensures firstLineTime == BaselineAfter(MergeLog(old(states), old(activeReaders), lib), Disp(), old(firstLineTime))
      ensures activeReaders == 0 && closed
    {
      ghost var log0 := MergeLog(states, activeReaders, lib);
      ghost var p := Progress(states, activeReaders, false, [], written, firstLineTime);
      p := Drain(lib, log0, written, firstLineTime, p);
      Drained(lib, log0, p);
      CloseWriter();
    }
  }
}
