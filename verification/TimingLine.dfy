/** SRT and WebVTT timing lines: matching them, printing clocks, and rewriting
    both times while keeping everything else of the line
    (internal/subtitleorder/order.go). */
module TimingLine {
  import opened Text

  const HOUR := 3_600_000_000_000
  const MILLISECOND := 1_000_000

  /** A matched clock: its hours with their colon ("" without hours), the
      decimal separator, its value in milliseconds, and what follows it. */
  datatype Clock = Clock(hours: string, separator: char, value: nat, rest: string)

  /** The fields of a timing line that a rewrite keeps, and the times it reads. */
  datatype Timing = Timing(hours1: string, separator: char, start: nat, arrow: string, hours2: string, end: nat, settings: string)

  function DigitRun(s: string): (n: nat)
    ensures n <= |s| && forall i | 0 <= i < n :: IsDigit(s[i])
  {
    if s == "" || !IsDigit(s[0]) then 0 else 1 + DigitRun(s[1..])
  }

  predicate IsTab(c: char) { c == '\t' || c == ' ' }

  function TabRun(s: string): (n: nat)
    ensures n <= |s| && forall i | 0 <= i < n :: IsTab(s[i])
  {
    if s == "" || !IsTab(s[0]) then 0 else 1 + TabRun(s[1..])
  }

  /** mm:ss,mmm or mm:ss.mmm at the front of s. */
  function MinuteClock(s: string, hours: string): Option<Clock>
    requires forall i | 0 <= i < |hours| - 1 :: IsDigit(hours[i])
  {
    if |s| >= 9 && IsDigit(s[0]) && IsDigit(s[1]) && s[2] == ':' && IsDigit(s[3]) && IsDigit(s[4]) && s[5] in ",."
       && IsDigit(s[6]) && IsDigit(s[7]) && IsDigit(s[8]) then
      var h := if hours == "" then 0 else Number(hours[..|hours| - 1]);
      var value := h * 3_600_000
                   + (10 * DigitValue(s[0]) + DigitValue(s[1])) * 60_000
                   + (10 * DigitValue(s[3]) + DigitValue(s[4])) * 1000
                   + 100 * DigitValue(s[6]) + 10 * DigitValue(s[7]) + DigitValue(s[8]);
      Some(Clock(hours, s[5], value, s[9..]))
    else None
  }

  /** A clock with optional hours at the front of s. */
  function MatchClock(s: string): Option<Clock> {
    var n := DigitRun(s);
    if 0 < n < |s| && s[n] == ':' && MinuteClock(s[n + 1..], s[..n + 1]).Some? then
      MinuteClock(s[n + 1..], s[..n + 1])
    else MinuteClock(s, "")
  }

  /** The length of "-->" with the tabs and spaces around it, 0 when s does not start so. */
  function ArrowLength(s: string): (n: nat)
    ensures n <= |s|
  {
    var before := TabRun(s);
    if "-->" <= s[before..] then before + 3 + TabRun(s[before + 3..]) else 0
  }

  function MatchTiming(line: string): Option<Timing> {
    match MatchClock(line)
    case None => None
    case Some(from) =>
      var n := ArrowLength(from.rest);
      if n == 0 then None
      else match MatchClock(from.rest[n..])
        case None => None
        case Some(to) =>
          Some(Timing(from.hours, from.separator, from.value, from.rest[..n], to.hours, to.value, to.rest))
  }

  /** Go's integer division and remainder truncate toward zero. */
  function Quotient(a: int, b: nat): int
    requires b > 0
  {
    if a < 0 then -((-a) / b) else a / b
  }

  function Remainder(a: int, b: nat): int
    requires b > 0
  {
    a - b * Quotient(a, b)
  }

  function ZeroPad(digits: string, width: nat): string
    decreases width - |digits|
  {
    if |digits| < width then ZeroPad("0" + digits, width) else digits
  }

  /** %0<width>d */
  function Padded(n: int, width: nat): string
    requires width > 0
  {
    if n < 0 then "-" + ZeroPad(Itoa(-n), width - 1) else ZeroPad(Itoa(n), width)
  }

  /** A duration in nanoseconds as a clock. */
  function FormatClock(value: int, separator: char, hours: bool): string {
    var ms := Quotient(value, MILLISECOND);
    var minutes := Padded(Remainder(Quotient(ms, 60_000), 60), 2) + ":" + Padded(Remainder(Quotient(ms, 1000), 60), 2)
                   + [separator] + Padded(Remainder(ms, 1000), 3);
    if hours then Padded(Quotient(ms, 3_600_000), 2) + ":" + minutes else minutes
  }

  /** The timing line with both times rewritten, or None when it does not match. */
  function Retimed(line: string, start: int, end: int): Option<string> {
    match MatchTiming(line)
    case None => None
    case Some(t) =>
      var hours := t.hours1 != "" || t.hours2 != "" || start >= HOUR || end >= HOUR;
      Some(FormatClock(start, t.separator, hours) + t.arrow + FormatClock(end, t.separator, hours) + t.settings)
  }

  lemma ArrowHoldsArrow(s: string)
    requires ArrowLength(s) > 0
    ensures Contains(s[..ArrowLength(s)], "-->")
  {
    var before := TabRun(s);
    var n := ArrowLength(s);
    assert s[..n] == s[..before] + "-->" + s[before + 3..n];
    ContainsAround(s[..before], "-->", s[before + 3..n]);
  }

  /** A rewritten timing line still is one. */
  lemma RetimedIsTiming(line: string, start: int, end: int)
    requires Retimed(line, start, end).Some?
    ensures Contains(Retimed(line, start, end).value, "-->")
  {
    hide FormatClock, Contains, MatchClock;
    var t := MatchTiming(line).value;
    var hours := t.hours1 != "" || t.hours2 != "" || start >= HOUR || end >= HOUR;
    ArrowHoldsArrow(MatchClock(line).value.rest);
    var right := FormatClock(end, t.separator, hours) + t.settings;
    ContainsWithin(FormatClock(start, t.separator, hours), t.arrow, right, "-->");
    assert Retimed(line, start, end).value == FormatClock(start, t.separator, hours) + t.arrow + right;
  }

  /** Zero padding keeps the number and reaches the width. */
  lemma {:induction false} ZeroPadNumber(digits: string, width: nat)
    requires forall i | 0 <= i < |digits| :: IsDigit(digits[i])
    ensures forall i | 0 <= i < |ZeroPad(digits, width)| :: IsDigit(ZeroPad(digits, width)[i])
    ensures |ZeroPad(digits, width)| == if |digits| < width then width else |digits|
    ensures Number(ZeroPad(digits, width)) == Number(digits)
    decreases width - |digits|
  {
    if |digits| < width {
      LeadingZero(digits);
      ZeroPadNumber("0" + digits, width);
    }
  }

  lemma {:induction false} LeadingZero(digits: string)
    requires forall i | 0 <= i < |digits| :: IsDigit(digits[i])
    ensures Number("0" + digits) == Number(digits)
  {
    if digits == "" {
      assert ("0" + digits)[..0] == "";
    } else {
      LeadingZero(digits[..|digits| - 1]);
      assert ("0" + digits)[..|digits|] == "0" + digits[..|digits| - 1];
    }
  }

  lemma PaddedReadsBack(n: nat, width: nat)
    requires width > 0
    ensures Padded(n, width) != "" && forall i | 0 <= i < |Padded(n, width)| :: IsDigit(Padded(n, width)[i])
    ensures Number(Padded(n, width)) == n
  {
    NumberOfItoa(n);
    ZeroPadNumber(Itoa(n), width);
  }

  lemma TwoDigits(n: nat)
    requires n < 100
    ensures var s := Padded(n, 2); |s| == 2 && IsDigit(s[0]) && IsDigit(s[1]) && 10 * DigitValue(s[0]) + DigitValue(s[1]) == n
  {
    hide Itoa, ZeroPad, Number;
    PaddedReadsBack(n, 2);
    ItoaLength(n);
    ZeroPadNumber(Itoa(n), 2);
    NumberOfTwo(Padded(n, 2));
  }

  lemma ThreeDigits(n: nat)
    requires n < 1000
    ensures var s := Padded(n, 3); |s| == 3 && IsDigit(s[0]) && IsDigit(s[1]) && IsDigit(s[2])
                                   && 100 * DigitValue(s[0]) + 10 * DigitValue(s[1]) + DigitValue(s[2]) == n
  {
    hide Itoa, ZeroPad, Number;
    PaddedReadsBack(n, 3);
    ItoaLength(n);
    ZeroPadNumber(Itoa(n), 3);
    NumberOfThree(Padded(n, 3));
  }

  lemma {:induction false} DigitRunStops(digits: string, rest: string)
    requires forall i | 0 <= i < |digits| :: IsDigit(digits[i])
    requires rest != "" && !IsDigit(rest[0])
    ensures DigitRun(digits + rest) == |digits|
  {
    if digits != "" {
      assert (digits + rest)[1..] == digits[1..] + rest;
      DigitRunStops(digits[1..], rest);
    } else {
      assert digits + rest == rest;
    }
  }

  lemma {:induction false} TabRunStops(tabs: string, rest: string)
    requires forall i | 0 <= i < |tabs| :: IsTab(tabs[i])
    requires rest != "" && !IsTab(rest[0])
    ensures TabRun(tabs + rest) == |tabs|
  {
    if tabs != "" {
      assert (tabs + rest)[1..] == tabs[1..] + rest;
      TabRunStops(tabs[1..], rest);
    } else {
      assert tabs + rest == rest;
    }
  }

  function MinuteText(m: nat, s: nat, r: nat, separator: char): string {
    Padded(m, 2) + ":" + Padded(s, 2) + [separator] + Padded(r, 3)
  }

  function HoursOf(hours: string): nat
    requires forall i | 0 <= i < |hours| - 1 :: IsDigit(hours[i])
  {
    if hours == "" then 0 else Number(hours[..|hours| - 1])
  }

  lemma MinuteReadsBack(m: nat, s: nat, r: nat, separator: char, hours: string, tail: string)
    requires m < 60 && s < 60 && r < 1000 && separator in ",."
    requires forall i | 0 <= i < |hours| - 1 :: IsDigit(hours[i])
    ensures |MinuteText(m, s, r, separator)| == 9
    ensures MinuteClock(MinuteText(m, s, r, separator) + tail, hours) ==
            Some(Clock(hours, separator, HoursOf(hours) * 3_600_000 + m * 60_000 + s * 1000 + r, tail))
  {
    hide Padded, Number;
    TwoDigits(m);
    TwoDigits(s);
    ThreeDigits(r);
    var text := MinuteText(m, s, r, separator) + tail;
    assert text[..2] == Padded(m, 2) && text[3..5] == Padded(s, 2) && text[6..9] == Padded(r, 3);
    assert text[9..] == tail;
  }

  lemma ClockParts(ms: nat)
    ensures ms == ms / 3_600_000 * 3_600_000 + ms / 60_000 % 60 * 60_000 + ms / 1000 % 60 * 1000 + ms % 1000
    ensures ms < 3_600_000 ==> ms / 3_600_000 == 0
  {
    assert ms / 60_000 / 60 == ms / 3_600_000;
    assert ms / 1000 / 60 == ms / 60_000;
  }

  /** The front of a clock that a later match adds when it has hours. */
  function HoursText(value: nat, hours: bool): string {
    if hours then Padded(value / MILLISECOND / 3_600_000, 2) + ":" else ""
  }

  lemma FormatClockText(value: nat, separator: char, hours: bool)
    ensures var ms := value / MILLISECOND;
            FormatClock(value, separator, hours) ==
            HoursText(value, hours) + MinuteText(ms / 60_000 % 60, ms / 1000 % 60, ms % 1000, separator)
  {
    hide Padded;
  }

  /** A printed clock reads back as the milliseconds it was printed from. */
  lemma ClockReadsBack(value: nat, separator: char, hours: bool, tail: string)
    requires separator in ",." && (hours || value < HOUR)
    ensures MatchClock(FormatClock(value, separator, hours) + tail) ==
            Some(Clock(HoursText(value, hours), separator, value / MILLISECOND, tail))
  {
    hide Padded, MinuteText, MatchClock, FormatClock;
    FormatClockText(value, separator, hours);
    var ms := value / MILLISECOND;
    var h, m, s, r := ms / 3_600_000, ms / 60_000 % 60, ms / 1000 % 60, ms % 1000;
    ClockParts(ms);
    if hours {
      HoursReadBack(h, m, s, r, separator, tail);
      assert FormatClock(value, separator, true) + tail == Padded(h, 2) + ":" + MinuteText(m, s, r, separator) + tail;
    } else {
      MinutesReadBack(m, s, r, separator, tail);
      assert FormatClock(value, separator, false) + tail == MinuteText(m, s, r, separator) + tail;
    }
  }

  lemma HoursReadBack(h: nat, m: nat, s: nat, r: nat, separator: char, tail: string)
    requires m < 60 && s < 60 && r < 1000 && separator in ",."
    ensures MatchClock(Padded(h, 2) + ":" + MinuteText(m, s, r, separator) + tail) ==
            Some(Clock(Padded(h, 2) + ":", separator, h * 3_600_000 + m * 60_000 + s * 1000 + r, tail))
  {
    hide Padded, MinuteText, MinuteClock, Number;
    var p, minutes := Padded(h, 2), MinuteText(m, s, r, separator);
    var text := p + ":" + minutes + tail;
    PaddedReadsBack(h, 2);
    MinuteReadsBack(m, s, r, separator, p + ":", tail);
    assert text == p + (":" + minutes + tail);
    DigitRunStops(p, ":" + minutes + tail);
    assert text[|p| + 1..] == minutes + tail && text[..|p| + 1] == p + ":";
    assert (p + ":")[..|p|] == p;
  }

  lemma MinutesReadBack(m: nat, s: nat, r: nat, separator: char, tail: string)
    requires m < 60 && s < 60 && r < 1000 && separator in ",."
    ensures MatchClock(MinuteText(m, s, r, separator) + tail) == Some(Clock("", separator, m * 60_000 + s * 1000 + r, tail))
  {
    hide Padded, MinuteText, MinuteClock, Number;
    MinuteReadsBack(m, s, r, separator, "", tail);
    NoHours(m, s, r, separator, tail);
  }

  /** Minutes and seconds alone are not taken for hours and minutes. */
  lemma NoHours(m: nat, s: nat, r: nat, separator: char, tail: string)
    requires m < 60 && s < 60 && r < 1000 && separator in ",."
    ensures var text := MinuteText(m, s, r, separator) + tail;
            DigitRun(text) == 2 && 3 <= |text| && MinuteClock(text[3..], text[..3]).None?
  {
    hide Padded, Number;
    TwoDigits(m);
    TwoDigits(s);
    ThreeDigits(r);
    var text := MinuteText(m, s, r, separator) + tail;
    var rest := ":" + Padded(s, 2) + [separator] + Padded(r, 3) + tail;
    assert text == Padded(m, 2) + rest;
    DigitRunStops(Padded(m, 2), rest);
    assert text[3..][2] == separator;
  }

  /** An arrow matched once matches again in front of a clock. */
  lemma ArrowReadsBack(s: string, clock: string)
    requires ArrowLength(s) > 0 && clock != "" && IsDigit(clock[0])
    ensures ArrowLength(s[..ArrowLength(s)] + clock) == ArrowLength(s)
  {
    var before := TabRun(s);
    var n := ArrowLength(s);
    var text := s[..n] + clock;
    assert text == s[..before] + ("-->" + s[before + 3..n] + clock);
    TabRunStops(s[..before], "-->" + s[before + 3..n] + clock);
    assert text[before..] == "-->" + s[before + 3..n] + clock;
    assert forall i | before + 3 <= i < n :: s[i] == s[before + 3..][i - before - 3];
    TabRunStops(s[before + 3..n], clock);
    assert text[before + 3..] == s[before + 3..n] + clock;
  }

  lemma ClockStartsWithDigit(value: nat, separator: char, hours: bool)
    ensures FormatClock(value, separator, hours) != "" && IsDigit(FormatClock(value, separator, hours)[0])
  {
    hide Padded;
    FormatClockText(value, separator, hours);
    PaddedReadsBack(value / MILLISECOND / 3_600_000, 2);
    TwoDigits(value / MILLISECOND / 60_000 % 60);
  }

  lemma SeparatorKinds(s: string)
    requires MatchClock(s).Some?
    ensures MatchClock(s).value.separator in ",."
  {
    hide Number;
  }

  /** Retiming a line and reading it again, even with more text behind it,
      gives the new times to the millisecond and keeps the separator and the arrow. */
  lemma RetimedReadsBack(line: string, start: nat, end: nat, more: string)
    requires Retimed(line, start, end).Some?
    ensures var t := MatchTiming(line).value;
            var again := MatchTiming(Retimed(line, start, end).value + more);
            && again.Some?
            && again.value.start == start / MILLISECOND && again.value.end == end / MILLISECOND
            && again.value.separator == t.separator && again.value.arrow == t.arrow && again.value.settings == t.settings + more
  {
    hide FormatClock, MatchClock, ArrowLength, HoursText;
    var t := MatchTiming(line).value;
    var hours := t.hours1 != "" || t.hours2 != "" || start >= HOUR || end >= HOUR;
    var from := MatchClock(line).value;
    SeparatorKinds(line);
    var second := FormatClock(end, t.separator, hours);
    var settings := t.settings + more;
    var tail := t.arrow + second + settings;
    var again := Retimed(line, start, end).value + more;
    assert again == FormatClock(start, t.separator, hours) + tail;
    ClockReadsBack(start, t.separator, hours, tail);
    ClockStartsWithDigit(end, t.separator, hours);
    ArrowReadsBack(from.rest, second + settings);
    assert tail == t.arrow + (second + settings);
    assert tail[|t.arrow|..] == second + settings && tail[..|t.arrow|] == t.arrow;
    ClockReadsBack(end, t.separator, hours, settings);
  }

  lemma ArrowIsRead(before: string, after: string, clock: string)
    requires (forall i | 0 <= i < |before| :: before[i] == ' ' || before[i] == '\t') && forall i | 0 <= i < |after| :: after[i] == ' ' || after[i] == '\t'
    requires clock != "" && IsDigit(clock[0])
    ensures ArrowLength(before + "-->" + after + clock) == |before| + 3 + |after|
  {
    var text := before + "-->" + after + clock;
    assert text == before + ("-->" + (after + clock));
    TabRunStops(before, "-->" + (after + clock));
    assert text[|before|..] == "-->" + (after + clock) && text[|before| + 3..] == after + clock;
    TabRunStops(after, clock);
  }

  /** Every line of two clocks with an arrow between them, with or without hours,
      with any tabs and spaces around the arrow and anything behind it, is read
      with its two times to the millisecond. */
  lemma TimingIsRead(start: nat, end: nat, separator: char, separator2: char, hours: bool, hours2: bool, before: string, after: string, settings: string)
    requires separator in ",." && separator2 in ",." && (hours || start < HOUR) && (hours2 || end < HOUR)
    requires (forall i | 0 <= i < |before| :: before[i] == ' ' || before[i] == '\t') && forall i | 0 <= i < |after| :: after[i] == ' ' || after[i] == '\t'
    ensures var t := MatchTiming(FormatClock(start, separator, hours) + (before + "-->" + after + (FormatClock(end, separator2, hours2) + settings)));
            && t.Some? && t.value.start == start / 1_000_000 && t.value.end == end / 1_000_000
            && t.value.separator == separator && t.value.arrow == before + "-->" + after && t.value.settings == settings
  {
    hide FormatClock, MatchClock, ArrowLength, HoursText;
    var second := FormatClock(end, separator2, hours2);
    var rest := before + "-->" + after + (second + settings);
    ClockReadsBack(start, separator, hours, rest);
    ClockStartsWithDigit(end, separator2, hours2);
    ArrowIsRead(before, after, second + settings);
    var arrow := before + "-->" + after;
    assert rest[..|arrow|] == arrow && rest[|arrow|..] == second + settings;
    ClockReadsBack(end, separator2, hours2, settings);
  }
}
