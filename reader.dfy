/**
 * `timedLineReader`: one input source. It buffers one line (its instant and
 * text), binds an extractor on its first line, and advances one line per
 * `scan`. The pure part (`SrcState`, `Step`, `Pending`) describes a reader as
 * a value; the class `TimedLineReader` is the mutable reader and is proved to
 * follow it.
 */
module LineReader {
  import opened Wrappers
  import opened GoLib
  import opened Extract

  /** Everything a reader holds: the bound extractor (nil until bound), the
      instant of the buffered line, its text, the lines the scanner has not
      yet returned, and whether the scanner is still live. */
  datatype SrcState = SrcState(
    extractor: Option<Extractor>,
    time: Instant,
    text: string,
    unread: seq<string>,
    active: bool)

  /** A reader becomes inactive only when its scanner has run dry. */
  predicate WellFormed(s: SrcState)
  {
    !s.active ==> s.unread == []
  }

  /** A reader as `newTimedLineReader` returns it. */
  function Fresh(input: seq<string>): (s: SrcState)
    ensures WellFormed(s) && s.active && s.extractor.None? && s.unread == input
  {
    SrcState(None, ZeroTime, "", input, true)
  }

  /** One buffered line as the merge sees it: its instant and its text. */
  datatype Entry = Entry(time: Instant, text: string)

  /** `logTime`: an unbound reader reports the zero time. */
  function PeekTime(s: SrcState): (t: Instant)
    ensures s.extractor.None? ==> t == ZeroTime
  {
    if s.extractor.None? then ZeroTime else s.time
  }

  /** What `logTime` and `logText` report together. */
  function Head(s: SrcState): (e: Entry)
    ensures s.extractor.None? ==> e == Entry(ZeroTime, s.text)
    ensures s.extractor.Some? ==> e == Entry(s.time, s.text)
  {
    Entry(PeekTime(s), s.text)
  }

  /** The error `scan` returns beside its flag: a line the bound extractor
      could not parse, or the end of the input. */
  datatype ScanError = Continuation(cause: ParseError) | NoMoreLines

  /** What `scan` leaves behind and returns. */
  datatype Scanned = Scanned(next: SrcState, more: bool, err: Option<ScanError>)

  /** `scan`. */
  function Step(s: SrcState, lib: Lib): (r: Scanned)
    requires Sound(lib)
    ensures r.more <==> s.unread != []
    ensures r.next.extractor == s.extractor
    ensures r.more ==> r.next.unread == s.unread[1..] && r.next.active == s.active
    ensures !r.more ==> r.next == s.(active := false) && r.err == Some(NoMoreLines)
    ensures r.more && s.extractor.None? ==> r.next.text == s.unread[0] && r.err.None?
    ensures r.more && s.extractor.Some? && Parse(s.extractor.value, s.unread[0], lib).Failure? ==>
              r.next.time == s.time && r.next.text == " " + s.unread[0]
              && r.err == Some(Continuation(Parse(s.extractor.value, s.unread[0], lib).error))
    ensures r.more && s.extractor.Some? && Parse(s.extractor.value, s.unread[0], lib).Success? ==>
              r.next.time == Parse(s.extractor.value, s.unread[0], lib).value.time
              && r.next.text == Parse(s.extractor.value, s.unread[0], lib).value.rest
              && r.err.None?
  {
    if s.unread == [] then Scanned(s.(active := false), false, Some(NoMoreLines))
    else
      var line := s.unread[0];
      var s1 := s.(unread := s.unread[1..]);
      match s.extractor
      case None => Scanned(s1.(text := line), true, None)
      case Some(ex) =>
        match Parse(ex, line, lib)
        case Failure(e) => Scanned(s1.(text := " " + line), true, Some(Continuation(e)))
        case Success(p) => Scanned(s1.(time := p.time, text := p.rest), true, None)
  }

  /** Every line the reader will still show, in order: the buffered one, then
      one per successful `scan`. An inactive reader shows nothing. */
  function Pending(s: SrcState, lib: Lib): (r: seq<Entry>)
    requires Sound(lib)
    ensures s.active ==> |r| == |s.unread| + 1 && r[0] == Head(s)
    ensures !s.active ==> r == []
    decreases |s.unread|
  {
    if !s.active then []
    else [Head(s)] + (if s.unread == [] then [] else Pending(Step(s, lib).next, lib))
  }

  /** `scan` consumes exactly the buffered line: what remains to be shown is
      the rest of what was pending. */
  lemma {:induction false} StepPops(s: SrcState, lib: Lib)
    requires Sound(lib) && WellFormed(s)
    ensures WellFormed(Step(s, lib).next)
    ensures Pending(Step(s, lib).next, lib) == if s.active then Pending(s, lib)[1..] else []
    ensures Step(s, lib).more <==> |Pending(s, lib)| >= 2
  {
  }

  /** Line k+1 of what a reader shows comes from its k-th unread line: raw for
      an unbound reader; the parse for a bound reader whose extractor accepts
      the line; otherwise the line after a space, carrying the instant of the
      line shown before it (a continuation line). */
  lemma {:induction false} PendingEntry(s: SrcState, lib: Lib, k: nat)
    requires Sound(lib) && s.active && k < |s.unread|
    ensures |Pending(s, lib)| == |s.unread| + 1
    ensures s.extractor.None? ==> Pending(s, lib)[k + 1] == Entry(ZeroTime, s.unread[k])
    ensures s.extractor.Some? && Parse(s.extractor.value, s.unread[k], lib).Success? ==>
              var p := Parse(s.extractor.value, s.unread[k], lib).value;
              Pending(s, lib)[k + 1] == Entry(p.time, p.rest)
    ensures s.extractor.Some? && Parse(s.extractor.value, s.unread[k], lib).Failure? ==>
              Pending(s, lib)[k + 1] == Entry(Pending(s, lib)[k].time, " " + s.unread[k])
    decreases k
  {
    var n := Step(s, lib).next;
    assert Pending(s, lib) == [Head(s)] + Pending(n, lib);
    if k > 0 {
      PendingEntry(n, lib, k - 1);
      assert n.unread[k - 1] == s.unread[k];
    }
  }

  /** An unbound reader shows every line at the zero time. */
  lemma {:induction false} UnboundAllZero(s: SrcState, lib: Lib)
    requires Sound(lib) && s.extractor.None?
    ensures forall e | e in Pending(s, lib) :: e.time == ZeroTime
    decreases |s.unread|
  {
    if s.active && s.unread != [] {
      UnboundAllZero(Step(s, lib).next, lib);
    }
  }

  /** The line `prepare` reads: `Text()` after one `Scan()`, which is "" when
      the input is empty. */
  function FirstLine(s: SrcState): (line: string)
    ensures s.unread == [] ==> line == ""
    ensures s.unread != [] ==> line == s.unread[0]
  {
    if s.unread == [] then "" else s.unread[0]
  }

  /** `prepare`. */
  function Prepared(s: SrcState, exs: seq<Extractor>, lib: Lib): (r: SrcState)
    requires Sound(lib)
    ensures r.active == s.active
    ensures r.unread == if s.unread == [] then [] else s.unread[1..]
  {
    var line := FirstLine(s);
    var s1 := s.(unread := if s.unread == [] then [] else s.unread[1..]);
    match FirstParse(exs, line, lib)
    case None => s1.(text := line)
    case Some(h) => s1.(extractor := Some(exs[h.index]), time := h.parsed.time, text := h.parsed.rest)
  }

  /** `prepare` binds the first extractor that parses the first line and
      buffers that line's instant and remaining text; when none parses it,
      the reader stays as it was, buffering the raw line. */
  lemma PrepareBinds(s: SrcState, exs: seq<Extractor>, lib: Lib)
    requires Sound(lib)
    ensures forall k | 0 <= k < |exs| && Parse(exs[k], FirstLine(s), lib).Success? ::
              (forall j | 0 <= j < k :: Parse(exs[j], FirstLine(s), lib).Failure?) ==>
                var r := Prepared(s, exs, lib);
                && r.extractor == Some(exs[k])
                && r.time == Parse(exs[k], FirstLine(s), lib).value.time
                && r.text == Parse(exs[k], FirstLine(s), lib).value.rest
    ensures (forall k | 0 <= k < |exs| :: Parse(exs[k], FirstLine(s), lib).Failure?) ==>
              var r := Prepared(s, exs, lib);
              r.extractor == s.extractor && r.time == s.time && r.text == FirstLine(s)
  {
    var line := FirstLine(s);
    match FirstParse(exs, line, lib)
    case None =>
    case Some(h) =>
      forall k | 0 <= k < |exs| && Parse(exs[k], line, lib).Success?
        ensures (forall j | 0 <= j < k :: Parse(exs[j], line, lib).Failure?) ==> k == h.index
      {
        if k < h.index {
        } else if k > h.index {
          assert Parse(exs[h.index], line, lib).Success?;
        }
      }
  }

  /** Everything one source shows from `prepare` to its end. */
  function Entries(input: seq<string>, exs: seq<Extractor>, lib: Lib): seq<Entry>
    requires Sound(lib)
  {
    Pending(Prepared(Fresh(input), exs, lib), lib)
  }

  /** A source shows one line per input line, and an empty source still
      shows one empty line: `prepare` buffers "" and the reader stays active
      until its first `scan`. */
  lemma EntriesLength(input: seq<string>, exs: seq<Extractor>, lib: Lib)
    requires Sound(lib)
    ensures |Entries(input, exs, lib)| == if input == [] then 1 else |input|
    ensures input == [] ==> Entries(input, exs, lib)[0].text == "" || FirstParse(exs, "", lib).Some?
  {
  }

  // ---------------------------------------------------------------------
  // The scanner's split function, bufio.ScanLines
  // ---------------------------------------------------------------------

  /** Index of the first newline of `s`, or |s| when there is none. */
  function LineEnd(s: string): (i: nat)
    ensures i <= |s|
    ensures i < |s| ==> s[i] == '\n'
    ensures forall j | 0 <= j < i :: s[j] != '\n'
    decreases |s|
  {
    if s == [] then 0 else if s[0] == '\n' then 0 else 1 + LineEnd(s[1..])
  }

  /** A line without the carriage return that ends it, if any. */
  function DropCR(s: string): (line: string)
    ensures s == line || s == line + "\r"
  {
    if |s| > 0 && s[|s| - 1] == '\r' then s[..|s| - 1] else s
  }

  /** The lines a `bufio.Scanner` with `ScanLines` returns for `s`: split at
      each newline, a carriage return before it dropped, and a last line
      without a newline kept unless it is empty. No line holds a newline. */
  function ScanLines(s: string): (lines: seq<string>)
    ensures s == [] <==> lines == []
    ensures forall k | 0 <= k < |lines| :: '\n' !in lines[k]
    decreases |s|
  {
    if s == [] then []
    else
      var i := LineEnd(s);
      [DropCR(s[..i])] + (if i < |s| then ScanLines(s[i + 1..]) else [])
  }

  /** `s` is its lines, each put back with its newline, when `s` holds no
      carriage return and ends with a newline or is empty. */
  lemma {:induction false} ScanLinesJoin(s: string)
    requires '\r' !in s
    requires s == [] || s[|s| - 1] == '\n'
    ensures Concat(Terminated(ScanLines(s))) == s
    decreases |s|
  {
    if s != [] {
      var i := LineEnd(s);
      assert i < |s|;
      var line, rest := s[..i], s[i + 1..];
      assert s == (line + "\n") + rest;
      ScanLinesStep(s, line, rest);
      ScanLinesJoin(rest);
      JoinCons(line, ScanLines(rest));
    }
  }

  /** The first line of a text with a newline and no carriage return. */
  lemma ScanLinesStep(s: string, line: string, rest: string)
    requires '\r' !in s && s == (line + "\n") + rest && '\n' !in line
    ensures ScanLines(s) == [line] + ScanLines(rest)
    ensures '\r' !in rest && (rest == [] || rest[|rest| - 1] == s[|s| - 1])
  {
    var i := |line|;
    assert s[..i] == line && s[i + 1..] == rest;
    assert LineEnd(s) == i by {
      assert forall j | 0 <= j < i :: s[j] == line[j];
      LineEndAt(s, i);
    }
    assert DropCR(line) == line by {
      assert '\r' !in line;
    }
  }

  /** The first newline is where no newline comes before. */
  lemma {:induction false} LineEndAt(s: string, i: nat)
    requires i < |s| && s[i] == '\n' && forall j | 0 <= j < i :: s[j] != '\n'
    ensures LineEnd(s) == i
    decreases i
  {
    if i > 0 {
      LineEndAt(s[1..], i - 1);
    }
  }

  /** Putting back one more line in front. */
  lemma JoinCons(line: string, lines: seq<string>)
    ensures Concat(Terminated([line] + lines)) == (line + "\n") + Concat(Terminated(lines))
  {
    assert ([line] + lines)[1..] == lines;
    var t := Terminated(lines);
    assert Terminated([line] + lines) == [line + "\n"] + t;
    assert ([line + "\n"] + t)[1..] == t;
  }

  /** A line with no newline and no trailing carriage return is read as
      exactly itself. */
  lemma OneScannedLine(s: string)
    requires s != [] && '\n' !in s && s[|s| - 1] != '\r'
    ensures ScanLines(s) == [s]
  {
    assert LineEnd(s) == |s|;
    assert s[..|s|] == s;
  }

  /** Each line followed by a newline. */
  function Terminated(lines: seq<string>): (out: seq<string>)
    ensures |out| == |lines| && forall k | 0 <= k < |lines| :: out[k] == lines[k] + "\n"
    decreases |lines|
  {
    if lines == [] then [] else [lines[0] + "\n"] + Terminated(lines[1..])
  }

  /** The strings one after the other (what `ioutil.ReadAll` returns for
      the strings written to a pipe). */
  function Concat(ss: seq<string>): (s: string)
    ensures |ss| == 1 ==> s == ss[0]
    decreases |ss|
  {
    if ss == [] then "" else ss[0] + Concat(ss[1..])
  }

  class TimedLineReader {
    /** The lines its scanner will return, in order. */
    const lines: seq<string>
    /** How many of them the scanner has returned. */
    var pos: nat
    var currentTime: Instant
    var currentLine: string
    var extractor: Option<Extractor>
    var active: bool

    ghost predicate Valid()
      reads this
    {
      pos <= |lines| && (!active ==> pos == |lines|)
    }

    /** The reader as `newTimedLineReader` leaves it. */
    ghost predicate Untouched()
      reads this
    {
      pos == 0 && active && extractor.None? && currentTime == ZeroTime && currentLine == ""
    }

    /** The reader as a value. */
    function State(): (s: SrcState)
      reads this
      requires Valid()
      ensures WellFormed(s)
    {
      SrcState(extractor, currentTime, currentLine, lines[pos..], active)
    }

    /** `newTimedLineReader`. */
    constructor (input: seq<string>)
      ensures Valid() && Untouched() && lines == input && State() == Fresh(input)
    {
      lines := input;
      pos := 0;
      currentTime := ZeroTime;
      currentLine := "";
      extractor := None;
      active := true;
    }

    /** `prepare`: read the first line and bind the first extractor that
        parses it. */
    method Prepare(exs: seq<Extractor>, lib: Lib)
      requires Valid() && Sound(lib)
      modifies this
      ensures Valid()
      ensures State() == Prepared(old(State()), exs, lib)
    {
      ghost var s0 := State();
      var line := "";
      if pos < |lines| {
        line := lines[pos];
        pos := pos + 1;
      }
      ghost var s1 := s0.(unread := if s0.unread == [] then [] else s0.unread[1..]);
      assert line == FirstLine(s0);
      assert State() == s1;
      var k := 0;
      while k < |exs|
        invariant 0 <= k <= |exs|
        invariant forall j | 0 <= j < k :: Parse(exs[j], line, lib).Failure?
        invariant Valid() && State() == s1
      {
        var r := Parse(exs[k], line, lib);
        if r.Success? {
          FirstParseAt(exs, line, lib, k);
          extractor := Some(exs[k]);
          currentTime := r.value.time;
          currentLine := r.value.rest;
          return;
        }
        k := k + 1;
      }
      currentLine := line;
    }

    /** `logTime`. */
    function LogTime(): (t: Instant)
      reads this
      requires Valid()
      ensures t == Head(State()).time
    {
      if extractor.None? then ZeroTime else currentTime
    }

    /** `logText`. */
    function LogText(): (text: string)
      reads this
      requires Valid()
      ensures text == Head(State()).text
    {
      currentLine
    }

    /** `scan`: advance to the next line. */
    method Scan(lib: Lib) returns (more: bool, err: Option<ScanError>)
      requires Valid() && Sound(lib)
      modifies this
      ensures Valid()
      ensures Step(old(State()), lib) == Scanned(State(), more, err)
    {
      if pos < |lines| {
        var line := lines[pos];
        pos := pos + 1;
        assert lines[pos..] == old(lines[pos..])[1..];
        if extractor.None? {
          currentLine := line;
          return true, None;
        }
        var r := Parse(extractor.value, line, lib);
        if r.Failure? {
          currentLine := " " + line;
          return true, Some(Continuation(r.error));
        }
        currentTime := r.value.time;
        currentLine := r.value.rest;
        return true, None;
      }
      active := false;
      return false, Some(NoMoreLines);
    }
  }
}
