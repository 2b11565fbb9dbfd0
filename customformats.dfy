/**
 * `TestCustomFormat`: check a user-supplied time format against an example
 * line and the output expected for it. The pattern must compile and must
 * parse the example line; the example is then run through a fresh
 * `Plywood` that shows absolute times only, under the reader name "test",
 * and everything it writes must equal the expected output.
 */
module CustomFormats {
  import opened Wrappers
  import opened GoLib
  import opened Extract
  import opened LineReader
  import opened Output
  import opened Engine

  /** A format to check: a pattern, a `time.Parse` layout, an example line
      and the text `Plywood` should write for it. */
  datatype CustomFormat = CustomFormat(regex: string, timeFormat: string, exampleLine: string, expectedOutput: string)

  /** Why a format is rejected, in the order the checks run. */
  datatype FormatError =
    | BadRegex(regex: string)                  // regexp.Compile failed
    | Unparsed(cause: ParseError)              // the extractor does not parse the example line
    | Mismatch(expected: string, got: string)  // Plywood wrote something else

  /** The display `TestCustomFormat` uses: absolute times, no relative
      times. */
  const AbsoluteOnly: Display := Display(true, false)

  /** The run inside `TestCustomFormat`: a fresh `Plywood` with display
      `disp`, one extractor, one reader named `name`, read to the end. What
      it writes is the merged, rendered log of that one input. */
  method RunExample(name: string, regex: string, layout: string, input: seq<string>, disp: Display, lib: Lib)
    returns (written: seq<string>)
    requires Sound(lib) && lib.compiles(regex)
    ensures written == Pipeline([name], [input], [Extractor(regex, layout)], disp, lib)
  {
    var p := Setup(name, regex, layout, input, disp, lib);
    assert p.lineReaders == [p.lineReaders[0]];
    p.Read(lib);
    written := p.written;
  }

  /** The `Plywood` `TestCustomFormat` builds before reading: display
      `disp`, the one extractor and the one reader, not yet started. */
  method Setup(name: string, regex: string, layout: string, input: seq<string>, disp: Display, lib: Lib)
    returns (p: Plywood)
    requires lib.compiles(regex)
    ensures fresh(p) && |p.lineReaders| == 1 && fresh(p.lineReaders[0])
    ensures p.Valid() && !p.started
    ensures p.readerNames == [name] && LinesOf(p.lineReaders) == [input]
    ensures p.timeExtractors == [Extractor(regex, layout)] && p.Disp() == disp
  {
    p := new Plywood(disp.absolute, disp.relative);
    p.AddTimeFormat(regex, layout, lib);
    assert p.lineReaders == [] && p.readerNames == [];
    p.AddReader(name, input);
    var r := p.lineReaders[0];
    assert p.lineReaders == [r] && r.lines == input;
    assert LinesOf([r]) == [input];
  }

  /** `TestCustomFormat`. A compile error comes first, then a parse error on
      the example line, then the comparison of what a fresh `Plywood`
      writes for the example with the expected output. */
  method TestCustomFormat(format: CustomFormat, lib: Lib) returns (err: Option<FormatError>)
    requires Sound(lib)
    ensures !lib.compiles(format.regex) ==> err == Some(BadRegex(format.regex))
    ensures var ex := Extractor(format.regex, format.timeFormat);
            lib.compiles(format.regex) && Parse(ex, format.exampleLine, lib).Failure? ==>
              err == Some(Unparsed(Parse(ex, format.exampleLine, lib).error))
    ensures var ex := Extractor(format.regex, format.timeFormat);
            var out := Concat(Pipeline(["test"], [ScanLines(format.exampleLine)], [ex], AbsoluteOnly, lib));
            lib.compiles(format.regex) && Parse(ex, format.exampleLine, lib).Success? ==>
              && (err == None <==> out == format.expectedOutput)
              && (err != None ==> err == Some(Mismatch(format.expectedOutput, out)))
  {
    if !lib.compiles(format.regex) {
      return Some(BadRegex(format.regex));
    }
    var ex := Extractor(format.regex, format.timeFormat);
    var parsed := Parse(ex, format.exampleLine, lib);
    if parsed.Failure? {
      return Some(Unparsed(parsed.error));
    }
    var written := RunExample("test", format.regex, format.timeFormat, ScanLines(format.exampleLine), AbsoluteOnly, lib);
    var out := Concat(written);
    if out != format.expectedOutput {
      return Some(Mismatch(format.expectedOutput, out));
    }
    return None;
  }

  /** For an example of one line that the format parses, the output is that
      one line: the absolute time, the name "test" and the rest of the line
      (or, should the instant be the zero time, the `z` marker instead of
      the time). So the format is accepted exactly when the expected output
      is that line. */
  lemma ExampleOutput(format: CustomFormat, lib: Lib)
    requires Sound(lib)
    requires format.exampleLine != [] && '\n' !in format.exampleLine
    requires format.exampleLine[|format.exampleLine| - 1] != '\r'
    requires Parse(Extractor(format.regex, format.timeFormat), format.exampleLine, lib).Success?
    ensures var ex := Extractor(format.regex, format.timeFormat);
            var p := Parse(ex, format.exampleLine, lib).value;
            Concat(Pipeline(["test"], [ScanLines(format.exampleLine)], [ex], AbsoluteOnly, lib))
              == if p.time == ZeroTime then "z " + Tail("test", p.rest)
                 else lib.stamp(p.time) + " " + Tail("test", p.rest)
  {
    OneScannedLine(format.exampleLine);
    ParsedLineOutput("test", format.exampleLine, Extractor(format.regex, format.timeFormat), AbsoluteOnly, lib);
  }

  /** A source of one line that `ex` parses comes out as that line's
      instant and remaining text, rendered once. */
  lemma ParsedLineOutput(name: string, line: string, ex: Extractor, disp: Display, lib: Lib)
    requires Sound(lib) && Parse(ex, line, lib).Success?
    ensures var p := Parse(ex, line, lib).value;
            Concat(Pipeline([name], [[line]], [ex], disp, lib)) == RenderLine(name, p.time, p.rest, disp, ZeroTime, lib)
  {
    var p := Parse(ex, line, lib).value;
    var s := Prepared(Fresh([line]), [ex], lib);
    assert PeekTime(s) == p.time && s.text == p.rest by {
      assert FirstLine(Fresh([line])) == line;
      PrepareBinds(Fresh([line]), [ex], lib);
    }
    SingleLine(name, line, [ex], disp, lib);
  }
}
