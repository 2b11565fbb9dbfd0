/**
 * `timeExtractor`: a compiled pattern and a time layout. `Parse` finds the
 * timestamp in a line and returns its instant and the rest of the line.
 */
module Extract {
  import opened Wrappers
  import opened GoLib

  /** A pattern (kept as its source text) and a `time.Parse` layout. */
  datatype Extractor = Extractor(regex: string, layout: string)

  /** A successful parse: the instant and the residual text. */
  datatype Parsed = Parsed(time: Instant, rest: string)

  /** The two ways `Parse` fails: the pattern did not match or has no capture
      group ("No regex match for ..."), or `time.Parse` rejected the captured
      text. */
  datatype ParseError = NoMatch(line: string) | BadTimestamp(layout: string, value: string)

  /** The year rule: a layout without a year parses to year 0, and the
      current year is then added. */
  function WithYear(t: Instant, lib: Lib): (r: Instant)
    ensures lib.yearOf(t) == 0 ==> r == lib.addYears(t, lib.currentYear)
    ensures lib.yearOf(t) != 0 ==> r == t
  {
    if lib.yearOf(t) == 0 then lib.addYears(t, lib.currentYear) else t
  }

  /** `timeExtractor.Parse`. The residual drops as many leading bytes of the
      line as the whole match is long, wherever the match was found. */
  function Parse(ex: Extractor, line: string, lib: Lib): (r: Result<Parsed, ParseError>)
    requires Sound(lib)
    ensures r.Success? <==>
              && lib.find(ex.regex, line).Some?
              && |lib.find(ex.regex, line).value.texts| > 1
              && lib.parseTime(ex.layout, lib.find(ex.regex, line).value.texts[1]).Some?
    ensures r.Failure? && r.error.NoMatch? <==>
              lib.find(ex.regex, line).None? || |lib.find(ex.regex, line).value.texts| <= 1
    ensures r.Success? ==>
              var m := lib.find(ex.regex, line).value;
              && r.value.time == WithYear(lib.parseTime(ex.layout, m.texts[1]).value, lib)
              && |r.value.rest| == |line| - |m.texts[0]|
              && line == line[..|m.texts[0]|] + r.value.rest
  {
    match lib.find(ex.regex, line)
    case None => Failure(NoMatch(line))
    case Some(m) =>
      if |m.texts| <= 1 then Failure(NoMatch(line))
      else
        match lib.parseTime(ex.layout, m.texts[1])
        case None => Failure(BadTimestamp(ex.layout, m.texts[1]))
        case Some(t) => Success(Parsed(WithYear(t, lib), line[|m.texts[0]|..]))
  }

  /** A match anchored at the start of the line: the residual is exactly what
      follows the match, so the line is the match followed by the residual. */
  lemma AnchoredResidual(ex: Extractor, line: string, lib: Lib)
    requires Sound(lib)
    requires Parse(ex, line, lib).Success?
    requires lib.find(ex.regex, line).value.at == 0
    ensures line == lib.find(ex.regex, line).value.texts[0] + Parse(ex, line, lib).value.rest
  {
    var m := lib.find(ex.regex, line).value;
    assert Placed(line, m);
  }

  /** A match that starts after index 0: the residual is NOT the line with the
      matched span cut out. Here the pattern matches "bc" at index 1 of
      "abcd"; the residual is "cd", not "ad". */
  lemma UnanchoredResidual()
    ensures
      var lib := Lib(
        _ => true,
        (re, line) => if |line| >= 3 && line[1..3] == "bc" then Some(RegexMatch(1, ["bc", "b"])) else None,
        (layout, value) => Some(1),
        _ => 2020,
        (t, y) => t,
        _ => "",
        2020);
      && Sound(lib)
      && Parse(Extractor("(b)c", "L"), "abcd", lib) == Success(Parsed(1, "cd"))
      && "abcd"[..1] + "abcd"[3..] == "ad"
  {
    var lib := Lib(
        _ => true,
        (re, line) => if |line| >= 3 && line[1..3] == "bc" then Some(RegexMatch(1, ["bc", "b"])) else None,
        (layout, value) => Some(1),
        _ => 2020,
        (t, y) => t,
        _ => "",
        2020);
    forall re: string, line: string | lib.find(re, line).Some?
      ensures Placed(line, lib.find(re, line).value)
    {
    }
    assert "abcd"[1..3] == "bc";
  }

  /** The first extractor that parses a line: its position in the list and
      its parse. */
  datatype Hit = Hit(index: nat, parsed: Parsed)

  /** The probe of `prepare`: the first extractor, in list order, whose
      `Parse` succeeds on `line`, or None when every one fails. */
  function FirstParse(exs: seq<Extractor>, line: string, lib: Lib): (r: Option<Hit>)
    requires Sound(lib)
    ensures r.Some? ==> r.value.index < |exs| && Parse(exs[r.value.index], line, lib) == Success(r.value.parsed)
    ensures r.Some? ==> forall j :: 0 <= j < r.value.index ==> Parse(exs[j], line, lib).Failure?
    ensures r.None? <==> forall j :: 0 <= j < |exs| ==> Parse(exs[j], line, lib).Failure?
    decreases |exs|
  {
    if exs == [] then None
    else
      match Parse(exs[0], line, lib)
      case Success(p) => Some(Hit(0, p))
      case Failure(_) =>
        match FirstParse(exs[1..], line, lib)
        case None => None
        case Some(h) => Some(Hit(h.index + 1, h.parsed))
  }

  /** The probe finds the extractor at k exactly when k parses the line and
      every extractor before it does not. */
  lemma FirstParseAt(exs: seq<Extractor>, line: string, lib: Lib, k: nat)
    requires Sound(lib) && k < |exs| && Parse(exs[k], line, lib).Success?
    requires forall j | 0 <= j < k :: Parse(exs[j], line, lib).Failure?
    ensures FirstParse(exs, line, lib) == Some(Hit(k, Parse(exs[k], line, lib).value))
  {
  }
}
