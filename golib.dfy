/**
 * The parts of Go's standard library that the merge engine calls but that are
 * not modelled: regular expressions, `time.Parse`, calendar arithmetic, time
 * rendering and the wall clock. They are gathered in one `Lib` value that every
 * operation needing them takes as a parameter. What IS modelled here: the
 * instant line (`time.Time` as an instant), `Time.Sub` with its saturation,
 * and Go's truncating integer division.
 */
module GoLib {
  import opened Wrappers

  /** A `time.Time`, as the instant it denotes: nanoseconds since Go's zero
      time, January 1 of year 1, 00:00:00 UTC. `IsZero` is `== 0`, `Before`
      is `<`. */
  type Instant = int

  /** The zero `time.Time{}`. */
  const ZeroTime: Instant := 0

  /** `time.Date(3000, 0, 0, 0, 0, 0, 0, time.UTC)`: month 0 and day 0
      normalise to November 30, 2999, 00:00 UTC, which is 1,095,330 days
      after the zero time. */
  const FarFuture: Instant := 94_636_512_000_000_000_000

  /** Bounds of `time.Duration`, an int64 count of nanoseconds. */
  const MinDuration: int := -0x8000_0000_0000_0000
  const MaxDuration: int := 0x7fff_ffff_ffff_ffff

  const NanosPerMilli: int := 1_000_000

  /** `t.Sub(u)`: the difference, saturated at the bounds of a Duration. */
  function Sub(t: Instant, u: Instant): (d: int)
    ensures MinDuration <= d <= MaxDuration
    ensures MinDuration <= t - u <= MaxDuration ==> d == t - u
    ensures t - u < MinDuration ==> d == MinDuration
    ensures t - u > MaxDuration ==> d == MaxDuration
  {
    if t - u < MinDuration then MinDuration
    else if t - u > MaxDuration then MaxDuration
    else t - u
  }

  /** Go's `a / b` for b > 0: the quotient truncated toward zero. */
  function Quot(a: int, b: int): (q: int)
    requires b > 0
    ensures a >= 0 ==> 0 <= q * b <= a < q * b + b
    ensures a < 0 ==> q * b - b < a <= q * b <= 0
  {
    if a >= 0 then DivBounds(a, b); a / b else DivBounds(-a, b); -((-a) / b)
  }

  /** Euclidean division of a non-negative number, as bounds on the product. */
  lemma DivBounds(a: int, b: int)
    requires a >= 0 && b > 0
    ensures 0 <= (a / b) * b <= a < (a / b) * b + b
    ensures (-(a / b)) * b == -((a / b) * b)
  {
    var q, r := a / b, a % b;
    assert a == b * q + r && 0 <= r < b;
    assert q >= 0;
    assert q * b == b * q;
  }

  /** Go's `a % b` for b > 0: the remainder takes the sign of `a`, so that
      `Quot(a, b) * b + Rem(a, b) == a`. */
  function Rem(a: int, b: int): (r: int)
    requires b > 0
    ensures Quot(a, b) * b + r == a
    ensures a >= 0 ==> 0 <= r < b
    ensures a < 0 ==> -b < r <= 0
  {
    if a >= 0 then a % b else -((-a) % b)
  }

  lemma QuotRemNonNegative(a: int, b: int)
    requires a >= 0 && b > 0
    ensures Quot(a, b) == a / b && Rem(a, b) == a % b
  {
  }

  /** What `regexp.Regexp.FindStringSubmatch` returns on a match, together
      with where the match starts: `texts[0]` is the whole match and
      `texts[1..]` hold one string per capture group of the pattern. */
  datatype RegexMatch = RegexMatch(at: nat, texts: seq<string>)

  /** The foreign calls, as values. */
  datatype Lib = Lib(
    compiles: string -> bool,                    // regexp.Compile(expr) returns no error
    find: (string, string) -> Option<RegexMatch>, // regexp FindStringSubmatch(expr, line); None is nil
    parseTime: (string, string) -> Option<Instant>, // time.Parse(layout, value); None is an error
    yearOf: Instant -> int,                      // Time.Year()
    addYears: (Instant, int) -> Instant,         // Time.AddDate(years, 0, 0)
    stamp: Instant -> string,                    // Time.Format("2006-01-02 03:04:05.000")
    currentYear: int                             // time.Now().Year()
  )

  /** A match is a substring of the line it was found in. */
  predicate Placed(line: string, m: RegexMatch)
  {
    |m.texts| >= 1 && m.at + |m.texts[0]| <= |line| && line[m.at..m.at + |m.texts[0]|] == m.texts[0]
  }

  /** The one property of the regular-expression engine the model relies on. */
  ghost predicate Sound(lib: Lib)
  {
    forall re: string, line: string :: lib.find(re, line).Some? ==> Placed(line, lib.find(re, line).value)
  }
}
