/**
 * The output formatter: `formatDuration` (with Go's `%02d`/`%03d` and
 * truncating arithmetic) and the text of one output line (`formatLine`),
 * including the relative-time baseline it keeps.
 */
module Output {
  import opened GoLib
  import opened LineReader

  predicate IsDigit(c: char)
  {
    '0' <= c <= '9'
  }

  predicate AllDigits(s: string)
  {
    forall i | 0 <= i < |s| :: IsDigit(s[i])
  }

  function DigitChar(d: nat): (c: char)
    requires d < 10
    ensures IsDigit(c)
  {
    (('0' as int) + d) as char
  }

  function DigitValue(c: char): nat
  {
    if IsDigit(c) then (c as int) - ('0' as int) else 0
  }

  /** Decimal digits of n, without leading zeros ("0" for zero). */
  function Decimal(n: nat): (s: string)
    ensures |s| >= 1 && AllDigits(s)
    decreases n
  {
    if n < 10 then [DigitChar(n)] else Decimal(n / 10) + [DigitChar(n % 10)]
  }

  /** The number a string of digits denotes. */
  function Value(s: string): nat
    decreases |s|
  {
    if s == [] then 0 else Value(s[..|s| - 1]) * 10 + DigitValue(s[|s| - 1])
  }

  function Zeros(k: nat): (s: string)
    ensures |s| == k && AllDigits(s)
  {
    if k == 0 then "" else "0" + Zeros(k - 1)
  }

  function Pow10(k: nat): nat
  {
    if k == 0 then 1 else 10 * Pow10(k - 1)
  }

  /** fmt's `%0<width>d`: the sign, then zeros up to the width (the sign
      counts toward it), then the digits. */
  function PadInt(v: int, width: nat): (s: string)
    ensures |s| >= width && |s| > 0
    ensures v < 0 <==> s[0] == '-'
  {
    var digits := Decimal(if v < 0 then -v else v);
    var sign := if v < 0 then "-" else "";
    var fill := width - |sign| - |digits|;
    sign + Zeros(if fill > 0 then fill else 0) + digits
  }

  lemma {:induction false} DecimalValue(n: nat)
    ensures Value(Decimal(n)) == n
    decreases n
  {
    if n >= 10 {
      DecimalValue(n / 10);
      var s := Decimal(n);
      assert s[..|s| - 1] == Decimal(n / 10);
    }
  }

  lemma {:induction false} DecimalLength(n: nat, w: nat)
    requires 1 <= w && n < Pow10(w)
    ensures |Decimal(n)| <= w
    decreases n
  {
    if n >= 10 {
      assert w >= 2;
      assert n / 10 < Pow10(w - 1);
      DecimalLength(n / 10, w - 1);
    }
  }

  lemma {:induction false} ValueAppend(s: string, c: char)
    ensures Value(s + [c]) == Value(s) * 10 + DigitValue(c)
  {
    assert (s + [c])[..|s + [c]| - 1] == s;
  }

  lemma {:induction false} ValueLeadingZeros(k: nat, s: string)
    ensures Value(Zeros(k) + s) == Value(s)
    decreases |s|
  {
    if s == [] {
      assert Zeros(k) + s == Zeros(k);
      ZerosValue(k);
    } else {
      var init := s[..|s| - 1];
      var last := s[|s| - 1];
      assert s == init + [last];
      assert Zeros(k) + s == (Zeros(k) + init) + [last];
      ValueAppend(Zeros(k) + init, last);
      ValueLeadingZeros(k, init);
      ValueAppend(init, last);
    }
  }

  lemma {:induction false} ZerosValue(k: nat)
    ensures Value(Zeros(k)) == 0
    decreases k
  {
    if k > 0 {
      assert Zeros(k) == Zeros(k - 1) + "0" by { ZerosSnoc(k); }
      ValueAppend(Zeros(k - 1), '0');
      ZerosValue(k - 1);
    }
  }

  lemma {:induction false} ZerosSnoc(k: nat)
    requires k > 0
    ensures Zeros(k) == Zeros(k - 1) + "0"
    decreases k
  {
    if k > 1 {
      ZerosSnoc(k - 1);
    }
  }

  /** A non-negative value below 10^width prints as exactly `width` digits
      that read back as the value. */
  lemma PadIntRoundTrip(v: nat, width: nat)
    requires 1 <= width && v < Pow10(width)
    ensures |PadInt(v, width)| == width && AllDigits(PadInt(v, width))
    ensures Value(PadInt(v, width)) == v
  {
    DecimalLength(v, width);
    var fill := width - |Decimal(v)|;
    assert PadInt(v, width) == Zeros(fill) + Decimal(v);
    ValueLeadingZeros(fill, Decimal(v));
    DecimalValue(v);
  }

  /** A negative value above -10^(width-1) prints as a minus sign and then
      `width - 1` digits (the sign counts toward the width) that read back
      as the value's magnitude. */
  lemma PadIntNegativeRoundTrip(v: int, width: nat)
    requires 2 <= width && v < 0 && -v < Pow10(width - 1)
    ensures var s := PadInt(v, width);
            |s| == width && s[0] == '-' && AllDigits(s[1..]) && Value(s[1..]) == -v
  {
    DecimalLength(-v, width - 1);
    var fill := width - 1 - |Decimal(-v)|;
    assert PadInt(v, width) == "-" + (Zeros(fill) + Decimal(-v));
    assert PadInt(v, width)[1..] == Zeros(fill) + Decimal(-v);
    ValueLeadingZeros(fill, Decimal(-v));
    DecimalValue(-v);
  }

  const MillisPerSecond: int := 1000
  const MillisPerMinute: int := 60 * 1000
  const MillisPerHour: int := 60 * 60 * 1000

  /** The four fields `formatDuration` prints. */
  datatype Clock = Clock(hour: int, min: int, sec: int, ms: int)

  /** Hours, minutes, seconds and milliseconds of a duration, each by
      truncating division and remainder on the whole number of
      milliseconds (`Duration.Milliseconds` truncates too), the hours taken
      modulo 60 as well. */
  function ClockOf(d: int): (c: Clock)
    ensures d >= 0 ==> 0 <= c.hour < 60 && 0 <= c.min < 60 && 0 <= c.sec < 60 && 0 <= c.ms < 1000
    ensures d < 0 ==> -60 < c.hour <= 0 && -60 < c.min <= 0 && -60 < c.sec <= 0 && -1000 < c.ms <= 0
  {
    var inMs := Quot(d, NanosPerMilli);
    Clock(Rem(Quot(inMs, MillisPerHour), 60), Rem(Quot(inMs, MillisPerMinute), 60),
          Rem(Quot(inMs, MillisPerSecond), 60), Rem(inMs, 1000))
  }

  /** `%02d:%02d:%02d:%03d` of the clock fields. */
  function RenderClock(c: Clock): (s: string)
    ensures |s| >= 12
  {
    PadInt(c.hour, 2) + ":" + PadInt(c.min, 2) + ":" + PadInt(c.sec, 2) + ":" + PadInt(c.ms, 3)
  }

  /** `formatDuration`. */
  function FormatDuration(d: int): (s: string)
    ensures |s| >= 12
  {
    RenderClock(ClockOf(d))
  }

  /** For a non-negative duration the fields are the Euclidean ones, each
      within its range. */
  lemma DurationFields(d: int)
    requires d >= 0
    ensures var t := d / NanosPerMilli;
            ClockOf(d) == Clock((t / MillisPerHour) % 60, (t / MillisPerMinute) % 60,
                                (t / MillisPerSecond) % 60, t % 1000)
    ensures 0 <= ClockOf(d).hour < 60 && 0 <= ClockOf(d).min < 60
    ensures 0 <= ClockOf(d).sec < 60 && 0 <= ClockOf(d).ms < 1000
  {
    var t := d / NanosPerMilli;
    QuotRemNonNegative(d, NanosPerMilli);
    QuotRemNonNegative(t, 1000);
    QuotRemNonNegative(t, MillisPerSecond);
    QuotRemNonNegative(t / MillisPerSecond, 60);
    QuotRemNonNegative(t, MillisPerMinute);
    QuotRemNonNegative(t / MillisPerMinute, 60);
    QuotRemNonNegative(t, MillisPerHour);
    QuotRemNonNegative(t / MillisPerHour, 60);
  }

  /** The shape `HH:MM:SS:mmm`. */
  predicate DurationShape(s: string)
  {
    && |s| == 12 && s[2] == ':' && s[5] == ':' && s[8] == ':'
    && AllDigits(s[0..2]) && AllDigits(s[3..5]) && AllDigits(s[6..8]) && AllDigits(s[9..12])
  }

  /** Reads `HH:MM:SS:mmm` back as a number of milliseconds. */
  function ReadDuration(s: string): int
    requires DurationShape(s)
  {
    Value(s[0..2]) * MillisPerHour + Value(s[3..5]) * MillisPerMinute
    + Value(s[6..8]) * MillisPerSecond + Value(s[9..12])
  }

  /** Clock fields within their ranges print as `HH:MM:SS:mmm` and read back. */
  lemma RenderClockReadBack(c: Clock)
    requires 0 <= c.hour < 60 && 0 <= c.min < 60 && 0 <= c.sec < 60 && 0 <= c.ms < 1000
    ensures DurationShape(RenderClock(c))
    ensures ReadDuration(RenderClock(c))
              == c.hour * MillisPerHour + c.min * MillisPerMinute + c.sec * MillisPerSecond + c.ms
  {
    assert Pow10(2) == 100 && Pow10(3) == 1000;
    PadIntRoundTrip(c.hour, 2);
    PadIntRoundTrip(c.min, 2);
    PadIntRoundTrip(c.sec, 2);
    PadIntRoundTrip(c.ms, 3);
    ClockSlices(PadInt(c.hour, 2), PadInt(c.min, 2), PadInt(c.sec, 2), PadInt(c.ms, 3));
  }

  /** Where the four fields and the separators sit in `HH:MM:SS:mmm`. */
  lemma ClockSlices(a: string, b: string, e: string, g: string)
    requires |a| == 2 && |b| == 2 && |e| == 2 && |g| == 3
    ensures var f := a + ":" + b + ":" + e + ":" + g;
            && |f| == 12 && f[2] == ':' && f[5] == ':' && f[8] == ':'
            && f[0..2] == a && f[3..5] == b && f[6..8] == e && f[9..12] == g
  {
    var f := a + ":" + b + ":" + e + ":" + g;
    assert f[0..2] == a && f[3..5] == b && f[6..8] == e && f[9..12] == g;
  }

  /** Below 60 hours a rendered duration reads back as its whole number of
      milliseconds. */
  lemma DurationRoundTrip(d: int)
    requires 0 <= d < 60 * MillisPerHour * NanosPerMilli
    ensures DurationShape(FormatDuration(d))
    ensures ReadDuration(FormatDuration(d)) == d / NanosPerMilli
  {
    DurationFields(d);
    RenderClockReadBack(ClockOf(d));
    MillisDecompose(d / NanosPerMilli);
  }

  lemma MillisDecompose(t: int)
    requires 0 <= t < 60 * MillisPerHour
    ensures ((t / MillisPerHour) % 60) * MillisPerHour + ((t / MillisPerMinute) % 60) * MillisPerMinute
            + ((t / MillisPerSecond) % 60) * MillisPerSecond + t % 1000 == t
  {
    var a := t / 1000;
    var b := a / 60;
    var h := b / 60;
    assert t == 1000 * a + t % 1000;
    assert a == 60 * b + a % 60;
    assert b == 60 * h + b % 60;
    NestedDivision(t);
    assert h < 60;
  }

  lemma NestedDivision(x: int)
    requires x >= 0
    ensures x / 1000 / 60 == x / 60000
    ensures x / 60000 / 60 == x / 3600000
  {
  }

  /** The hour field is taken modulo 60, so durations 60 hours apart render
      alike. */
  lemma DurationWraps(d: int)
    requires d >= 0
    ensures FormatDuration(d + 60 * MillisPerHour * NanosPerMilli) == FormatDuration(d)
  {
    ClockWraps(d);
  }

  lemma ClockWraps(d: int)
    requires d >= 0
    ensures ClockOf(d + 60 * MillisPerHour * NanosPerMilli) == ClockOf(d)
  {
    var k := 60 * MillisPerHour * NanosPerMilli;
    DurationFields(d);
    DurationFields(d + k);
    var t := d / NanosPerMilli;
    assert (d + k) / NanosPerMilli == t + 216_000_000 by {
      ShiftDiv(d, NanosPerMilli, 216_000_000);
    }
    FieldShift(t, MillisPerHour, 60, 1);
    FieldShift(t, MillisPerMinute, 60, 60);
    FieldShift(t, MillisPerSecond, 60, 3600);
    ShiftDiv(t, 1000, 216_000);
  }

  /** Adding q whole multiples of m * n to x leaves the field (x / n) % m
      unchanged. */
  lemma FieldShift(x: int, n: int, m: int, q: nat)
    requires x >= 0 && n > 0 && m > 0
    ensures ((x + q * m * n) / n) % m == (x / n) % m
  {
    assert q * m * n == (q * m) * n;
    ShiftDiv(x, n, q * m);
    ShiftMod(x / n, m, q);
  }

  /** Adding q whole multiples of n adds q to the quotient. */
  lemma ShiftDiv(x: int, n: int, q: nat)
    requires x >= 0 && n > 0
    ensures (x + q * n) / n == x / n + q
    ensures (x + q * n) % n == x % n
  {
    var a, r := x / n, x % n;
    assert x == n * a + r && 0 <= r < n;
    assert x + q * n == n * (a + q) + r;
    DivUnique(x + q * n, n, a + q, r);
  }

  lemma ShiftMod(x: int, n: int, q: nat)
    requires x >= 0 && n > 0
    ensures (x + q * n) % n == x % n
  {
    ShiftDiv(x, n, q);
  }

  /** Euclidean division is unique. */
  lemma DivUnique(x: int, n: int, a: int, r: int)
    requires n > 0 && x == n * a + r && 0 <= r < n
    ensures x / n == a && x % n == r
  {
    var a', r' := x / n, x % n;
    assert x == n * a' + r' && 0 <= r' < n;
    if a' > a {
      assert n * a' - n * a == n * (a' - a);
      MulMono(n, 1, a' - a);
    } else if a' < a {
      assert n * a - n * a' == n * (a - a');
      MulMono(n, 1, a - a');
    }
  }

  lemma MulMono(p: int, u: int, v: int)
    requires p > 0 && 0 <= u <= v
    ensures 0 <= p * u <= p * v
  {
  }

  /** 1h2m3.456s renders as 01:02:03:456. */
  lemma DurationExample()
    ensures FormatDuration(3_723_456 * NanosPerMilli) == "01:02:03:456"
  {
    assert ClockOf(3_723_456 * NanosPerMilli) == Clock(1, 2, 3, 456) by {
      DurationFields(3_723_456 * NanosPerMilli);
    }
    assert RenderClock(Clock(1, 2, 3, 456)) == "01:02:03:456" by {
      PrintSmall();
    }
  }

  lemma PrintSmall()
    ensures PadInt(0, 2) == "00" && PadInt(1, 2) == "01" && PadInt(2, 2) == "02" && PadInt(3, 2) == "03"
    ensures PadInt(-1, 2) == "-1"
    ensures PadInt(456, 3) == "456" && PadInt(-500, 3) == "-500" && PadInt(0, 3) == "000"
  {
    assert Decimal(4) == "4" && Decimal(45) == "45" && Decimal(456) == "456";
    assert Decimal(5) == "5" && Decimal(50) == "50" && Decimal(500) == "500";
  }

  /** A negative duration keeps Go's signs: -1.5s renders as 00:00:-1:-500. */
  lemma NegativeDurationExample()
    ensures FormatDuration(-1_500 * NanosPerMilli) == "00:00:-1:-500"
  {
    assert ClockOf(-1_500 * NanosPerMilli) == Clock(0, 0, -1, -500) by {
      assert Quot(-1_500 * NanosPerMilli, NanosPerMilli) == -1500;
      assert Quot(-1500, MillisPerSecond) == -1;
      assert Quot(-1500, MillisPerMinute) == 0 && Quot(-1500, MillisPerHour) == 0;
    }
    assert RenderClock(Clock(0, 0, -1, -500)) == "00:00:-1:-500" by {
      PrintSmall();
    }
  }

  /** The two display toggles, `IncludeAbsoluteTime` and `IncludeRelativeTime`. */
  datatype Display = Display(absolute: bool, relative: bool)

  /** One line handed to `formatLine`: the reader's index, its instant and its
      text. */
  datatype Emission = Emission(reader: nat, time: Instant, text: string)

  /** What every output line ends with: the bracketed reader name, the text
      and a newline. */
  function Tail(name: string, text: string): (t: string)
    ensures |t| == |name| + |text| + 3
  {
    "[" + name + "]" + text + "\n"
  }

  /** The absolute column: the rendered instant and a space, when shown. */
  function StampColumn(when: Instant, disp: Display, lib: Lib): (col: string)
    ensures disp.absolute <==> col != []
  {
    if disp.absolute then lib.stamp(when) + " " else ""
  }

  /** `firstLineTime` after `formatLine` handles a line at `when`. */
  function NextBaseline(baseline: Instant, when: Instant, disp: Display): (b: Instant)
    ensures baseline != ZeroTime ==> b == baseline
    ensures baseline == ZeroTime && when != ZeroTime && disp.relative ==> b == when
    ensures when == ZeroTime || !disp.relative ==> b == baseline
  {
    if when != ZeroTime && disp.relative && baseline == ZeroTime then when else baseline
  }

  /** The relative column: the offset from the baseline in brackets, when
      shown; a line that finds the baseline unset sets it first. */
  function OffsetColumn(when: Instant, disp: Display, baseline: Instant): (col: string)
    ensures disp.relative <==> col != []
    ensures col != [] ==> |col| >= 14
  {
    if disp.relative then "[" + FormatDuration(Sub(when, NextBaseline(baseline, when, disp))) + "]" else ""
  }

  /** The tail is the name between brackets, then the text, then a newline:
      each part can be read back from its place. */
  lemma TailShape(name: string, text: string)
    ensures var t := Tail(name, text);
            && t[0] == '[' && t[1..|name| + 1] == name && t[|name| + 1] == ']'
            && t[|name| + 2..|t| - 1] == text && t[|t| - 1] == '\n'
  {
    var t := Tail(name, text);
    assert t[1..|name| + 1] == name;
    assert t[|name| + 2..|t| - 1] == text;
  }

  /** A shown relative column is the rendered offset from the baseline
      between brackets; on the line that sets the baseline that offset is
      zero. */
  lemma OffsetShape(when: Instant, disp: Display, baseline: Instant)
    requires disp.relative
    ensures var col := OffsetColumn(when, disp, baseline);
            && col[0] == '[' && col[|col| - 1] == ']'
            && col[1..|col| - 1] == FormatDuration(Sub(when, NextBaseline(baseline, when, disp)))
    ensures baseline == ZeroTime && when != ZeroTime ==>
              OffsetColumn(when, disp, baseline)[1..|OffsetColumn(when, disp, baseline)| - 1] == FormatDuration(0)
  {
    var col := OffsetColumn(when, disp, baseline);
    assert col[1..|col| - 1] == FormatDuration(Sub(when, NextBaseline(baseline, when, disp)));
  }

  /** The text `formatLine` writes for one line, given the baseline before
      it: a line without a timestamp is marked `z` and has no time columns. */
  function RenderLine(name: string, when: Instant, text: string, disp: Display, baseline: Instant, lib: Lib): (line: string)
    ensures when == ZeroTime ==> line == "z [" + name + "]" + text + "\n"
    ensures when != ZeroTime ==> line == StampColumn(when, disp, lib) + OffsetColumn(when, disp, baseline) + Tail(name, text)
  {
    if when == ZeroTime then "z " + Tail(name, text)
    else StampColumn(when, disp, lib) + OffsetColumn(when, disp, baseline) + Tail(name, text)
  }

  lemma ZeroDuration()
    ensures FormatDuration(0) == "00:00:00:000"
  {
    assert ClockOf(0) == Clock(0, 0, 0, 0) by {
      DurationFields(0);
    }
    assert RenderClock(Clock(0, 0, 0, 0)) == "00:00:00:000" by {
      PrintSmall();
    }
  }

  predicate NamesCover(names: seq<string>, log: seq<Emission>)
  {
    forall k | 0 <= k < |log| :: log[k].reader < |names|
  }

  /** Everything `formatLine` writes for a sequence of lines, starting from a
      baseline. */
  function RenderFrom(names: seq<string>, log: seq<Emission>, disp: Display, baseline: Instant, lib: Lib): (out: seq<string>)
    requires NamesCover(names, log)
    ensures |out| == |log|
    decreases |log|
  {
    if log == [] then []
    else
      var e := log[0];
      [RenderLine(names[e.reader], e.time, e.text, disp, baseline, lib)]
      + RenderFrom(names, log[1..], disp, NextBaseline(baseline, e.time, disp), lib)
  }

  /** The baseline after a sequence of lines. */
  function BaselineAfter(log: seq<Emission>, disp: Display, baseline: Instant): Instant
    decreases |log|
  {
    if log == [] then baseline else BaselineAfter(log[1..], disp, NextBaseline(baseline, log[0].time, disp))
  }

  /** The instant of the first timestamped line, or the zero time if none is. */
  function FirstTimed(log: seq<Emission>): Instant
    decreases |log|
  {
    if log == [] then ZeroTime else if log[0].time != ZeroTime then log[0].time else FirstTimed(log[1..])
  }

  /** Line j of the output is line j of the log rendered against the baseline
      the lines before it left. */
  lemma {:induction false} RenderAt(names: seq<string>, log: seq<Emission>, disp: Display, baseline: Instant, lib: Lib, j: nat)
    requires NamesCover(names, log) && j < |log|
    ensures RenderFrom(names, log, disp, baseline, lib)[j]
              == RenderLine(names[log[j].reader], log[j].time, log[j].text, disp, BaselineAfter(log[..j], disp, baseline), lib)
    decreases j
  {
    if j > 0 {
      var b := NextBaseline(baseline, log[0].time, disp);
      RenderAt(names, log[1..], disp, b, lib, j - 1);
      assert log[..j][1..] == log[1..][..j - 1];
    }
  }

  /** Rendering one more line appends the line rendered against the
      baseline the earlier lines left. */
  lemma {:induction false} RenderSnoc(names: seq<string>, log: seq<Emission>, e: Emission, disp: Display, baseline: Instant, lib: Lib)
    requires NamesCover(names, log) && e.reader < |names|
    ensures NamesCover(names, log + [e])
    ensures RenderFrom(names, log + [e], disp, baseline, lib)
              == RenderFrom(names, log, disp, baseline, lib)
                 + [RenderLine(names[e.reader], e.time, e.text, disp, BaselineAfter(log, disp, baseline), lib)]
    ensures BaselineAfter(log + [e], disp, baseline) == NextBaseline(BaselineAfter(log, disp, baseline), e.time, disp)
    decreases |log|
  {
    if log != [] {
      assert (log + [e])[1..] == log[1..] + [e];
      RenderSnoc(names, log[1..], e, disp, NextBaseline(baseline, log[0].time, disp), lib);
    }
  }

  /** The baseline after two logs is the baseline the second leaves,
      starting from the one the first left. */
  lemma {:induction false} BaselineAppend(a: seq<Emission>, b: seq<Emission>, disp: Display, baseline: Instant)
    ensures BaselineAfter(a + b, disp, baseline) == BaselineAfter(b, disp, BaselineAfter(a, disp, baseline))
    decreases |a|
  {
    if a == [] {
      assert a + b == b;
    } else {
      assert (a + b)[0] == a[0];
      assert (a + b)[1..] == a[1..] + b;
      BaselineAppend(a[1..], b, disp, NextBaseline(baseline, a[0].time, disp));
    }
  }

  /** Rendering two logs one after the other is rendering the second
      against the baseline the first left. */
  lemma {:induction false} RenderAppend(names: seq<string>, a: seq<Emission>, b: seq<Emission>, disp: Display, baseline: Instant, lib: Lib)
    requires NamesCover(names, a) && NamesCover(names, b)
    ensures NamesCover(names, a + b)
    ensures RenderFrom(names, a + b, disp, baseline, lib)
              == RenderFrom(names, a, disp, baseline, lib) + RenderFrom(names, b, disp, BaselineAfter(a, disp, baseline), lib)
    decreases |a|
  {
    if a == [] {
      assert a + b == b;
    } else {
      var nb := NextBaseline(baseline, a[0].time, disp);
      var line := RenderLine(names[a[0].reader], a[0].time, a[0].text, disp, baseline, lib);
      assert (a + b)[0] == a[0];
      assert (a + b)[1..] == a[1..] + b;
      RenderAppend(names, a[1..], b, disp, nb, lib);
      var x, y := RenderFrom(names, a[1..], disp, nb, lib), RenderFrom(names, b, disp, BaselineAfter(a[1..], disp, nb), lib);
      assert RenderFrom(names, a + b, disp, baseline, lib) == [line] + (x + y);
      assert [line] + (x + y) == ([line] + x) + y;
    }
  }

  /** The baseline, once set, never changes. */
  lemma {:induction false} BaselineStable(log: seq<Emission>, disp: Display, baseline: Instant)
    requires baseline != ZeroTime
    ensures BaselineAfter(log, disp, baseline) == baseline
    decreases |log|
  {
    if log != [] {
      BaselineStable(log[1..], disp, baseline);
    }
  }

  /** Starting unset, the baseline is the instant of the first timestamped
      line when relative times are shown, and stays unset otherwise. */
  lemma {:induction false} BaselineIsFirstTimed(log: seq<Emission>, disp: Display)
    ensures BaselineAfter(log, disp, ZeroTime) == if disp.relative then FirstTimed(log) else ZeroTime
    decreases |log|
  {
    if log != [] {
      var b := NextBaseline(ZeroTime, log[0].time, disp);
      if b == ZeroTime {
        BaselineIsFirstTimed(log[1..], disp);
      } else {
        BaselineStable(log[1..], disp, b);
      }
    }
  }

  lemma {:induction false} FirstTimedSnoc(log: seq<Emission>, e: Emission)
    ensures FirstTimed(log + [e]) == if FirstTimed(log) != ZeroTime then FirstTimed(log) else e.time
    decreases |log|
  {
    if log != [] {
      assert (log + [e])[1..] == log[1..] + [e];
      FirstTimedSnoc(log[1..], e);
    }
  }

  /** A timestamped line with relative times shown carries its offset from
      the baseline in force after it. */
  lemma RelativeLine(name: string, t: Instant, text: string, disp: Display, b: Instant, lib: Lib)
    requires disp.relative && t != ZeroTime
    ensures RenderLine(name, t, text, disp, b, lib)
              == StampColumn(t, disp, lib) + ("[" + FormatDuration(Sub(t, NextBaseline(b, t, disp))) + "]") + Tail(name, text)
  {
  }

  /** The line that sets the baseline shows a zero offset, which
      `ZeroDuration` renders as 00:00:00:000. */
  lemma FirstRelativeLine(name: string, t: Instant, text: string, disp: Display, lib: Lib)
    requires disp.relative && t != ZeroTime
    ensures RenderLine(name, t, text, disp, ZeroTime, lib)
              == StampColumn(t, disp, lib) + ("[" + FormatDuration(0) + "]") + Tail(name, text)
  {
    RelativeLine(name, t, text, disp, ZeroTime, lib);
    assert Sub(t, NextBaseline(ZeroTime, t, disp)) == 0;
  }

  /** With relative times shown and the baseline unset at the start, line j
      is rendered against the first instant among the lines before it. */
  lemma RenderAtFirstTimed(names: seq<string>, log: seq<Emission>, disp: Display, lib: Lib, j: nat)
    requires NamesCover(names, log) && j < |log| && disp.relative
    ensures RenderFrom(names, log, disp, ZeroTime, lib)[j]
              == RenderLine(names[log[j].reader], log[j].time, log[j].text, disp, FirstTimed(log[..j]), lib)
  {
    RenderAt(names, log, disp, ZeroTime, lib, j);
    BaselineIsFirstTimed(log[..j], disp);
  }

  /** The baseline after a timestamped line j is the first instant among the
      lines up to and including it. */
  lemma FirstTimedNext(log: seq<Emission>, disp: Display, j: nat)
    requires j < |log| && disp.relative && log[j].time != ZeroTime
    ensures NextBaseline(FirstTimed(log[..j]), log[j].time, disp) == FirstTimed(log[..j + 1])
  {
    assert log[..j + 1] == log[..j] + [log[j]];
    FirstTimedSnoc(log[..j], log[j]);
  }

  /** `RelativeLine`, with the baseline in force after the line named `g`. */
  lemma OffsetFrom(name: string, t: Instant, text: string, disp: Display, b: Instant, g: Instant, lib: Lib)
    requires disp.relative && t != ZeroTime && NextBaseline(b, t, disp) == g
    ensures RenderLine(name, t, text, disp, b, lib)
              == StampColumn(t, disp, lib) + ("[" + FormatDuration(Sub(t, g)) + "]") + Tail(name, text)
  {
    RelativeLine(name, t, text, disp, b, lib);
  }

  /** With relative times shown and the baseline unset at the start, every
      timestamped line carries its offset from the first timestamped line of
      the output (that line itself shows 00:00:00:000). */
  lemma RelativeOffsets(names: seq<string>, log: seq<Emission>, disp: Display, lib: Lib, j: nat)
    requires NamesCover(names, log) && j < |log|
    requires disp.relative && log[j].time != ZeroTime
    ensures RenderFrom(names, log, disp, ZeroTime, lib)[j]
              == StampColumn(log[j].time, disp, lib)
                 + ("[" + FormatDuration(Sub(log[j].time, FirstTimed(log[..j + 1]))) + "]")
                 + Tail(names[log[j].reader], log[j].text)
    ensures FirstTimed(log[..j]) == ZeroTime ==>
              RenderFrom(names, log, disp, ZeroTime, lib)[j]
                == StampColumn(log[j].time, disp, lib) + ("[" + FormatDuration(0) + "]") + Tail(names[log[j].reader], log[j].text)
  {
    var e := log[j];
    RenderAtFirstTimed(names, log, disp, lib, j);
    FirstTimedNext(log, disp, j);
    OffsetFrom(names[e.reader], e.time, e.text, disp, FirstTimed(log[..j]), FirstTimed(log[..j + 1]), lib);
    if FirstTimed(log[..j]) == ZeroTime {
      FirstRelativeLine(names[e.reader], e.time, e.text, disp, lib);
    }
  }
}
