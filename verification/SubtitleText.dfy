/** A subtitle as text: line endings, byte order mark and final newlines come
    off before the lines are rewritten and go back on afterwards
    (internal/subtitleorder/order.go:55-131). */
module SubtitleText {
  import opened Text
  import opened CueBlocks
  import opened SubtitleRewrite
  import opened SubtitleReread
  import SecondRepair
  import TimingLine

  const BOM := '\U{FEFF}'

  /** Windows line endings become newlines. */
  function Normalized(s: string): string {
    if s == "" then ""
    else if |s| >= 2 && s[0] == '\r' && s[1] == '\n' then "\n" + Normalized(s[2..])
    else [s[0]] + Normalized(s[1..])
  }

  function FinalNewlines(s: string): (n: nat)
    ensures n <= |s|
  {
    if s != "" && s[|s| - 1] == '\n' then 1 + FinalNewlines(s[..|s| - 1]) else 0
  }

  datatype Parts = Parts(content: string, bom: bool, trailing: nat)

  function SplitContent(text: string): Parts {
    var all := Normalized(text);
    var bom := all != "" && all[0] == BOM;
    var content := if bom then all[1..] else all;
    var trailing := FinalNewlines(content);
    Parts(content[..|content| - trailing], bom, trailing)
  }

  function SplitLines(s: string): (lines: seq<string>)
    ensures lines != []
  {
    if s == "" then [""]
    else
      var rest := SplitLines(s[1..]);
      if s[0] == '\n' then [""] + rest else [[s[0]] + rest[0]] + rest[1..]
  }

  function LinesOf(text: string): seq<string> { SplitLines(SplitContent(text).content) }

  function Assembled(bom: bool, lines: seq<string>, trailing: nat): string {
    (if bom then [BOM] else "") + Join(lines, "\n") + Repeat("\n", trailing)
  }

  datatype TextOutcome = SameText | NewText(text: string) | UnsafeText

  /** Repair on text; Reorder is the same without closing italics. */
  method RepairText(text: string, format: Format, cues: seq<Cue>, close: bool) returns (r: TextOutcome)
    ensures forall blocks | IsCueList(LinesOf(text), format == WebVtt, blocks) ::
              r == TextOf(text, Rewrite(Job(LinesOf(text), format, cues, close, blocks)))
    ensures r == SameText ==> CuesRight(cues)
    ensures CuesRight(cues) && !close ==> r == SameText
  {
    var parts := SplitContent(text);
    var lines := SplitLines(parts.content);
    var outcome := Repair(lines, format, cues, close);
    match outcome
    case Unchanged => r := SameText;
    case Unsafe => r := UnsafeText;
    case Rewritten(final) => r := NewText(Assembled(parts.bom, final, parts.trailing));
  }

  function TextOf(text: string, outcome: Outcome): TextOutcome {
    match outcome
    case Unchanged => SameText
    case Unsafe => UnsafeText
    case Rewritten(final) => NewText(Assembled(SplitContent(text).bom, final, SplitContent(text).trailing))
  }

  // ---- plain lines -------------------------------------------------------

  /** A line as lines are split: without a newline. */
  predicate Plain(line: string) { '\n' !in line }

  ghost predicate AllPlain(lines: seq<string>) {
    forall line | line in lines :: Plain(line)
  }

  /** Characters of a printed clock. */
  predicate ClockChar(c: char) { c in "0123456789-:,." }

  ghost predicate ClockText(s: string) {
    s != "" && forall c | c in s :: ClockChar(c)
  }

  lemma ClockTextAppend(a: string, b: string)
    requires (ClockText(a) || a == "") && ClockText(b)
    ensures ClockText(a + b)
  {
  }

  lemma {:induction false} ZeroPadText(digits: string, width: nat)
    requires ClockText(digits)
    ensures ClockText(TimingLine.ZeroPad(digits, width))
    decreases width - |digits|
  {
    if |digits| < width {
      ClockTextAppend("0", digits);
      ZeroPadText("0" + digits, width);
    }
  }

  lemma DigitsAreClock(n: nat)
    ensures ClockText(Itoa(n))
  {
    forall c | c in Itoa(n) ensures ClockChar(c) {
      var i :| 0 <= i < |Itoa(n)| && Itoa(n)[i] == c;
      DigitIsClock(c);
    }
  }

  lemma DigitIsClock(c: char)
    requires IsDigit(c)
    ensures ClockChar(c)
  {
    var digits := "0123456789";
    assert c == digits[DigitValue(c)];
  }

  lemma PaddedText(n: int, width: nat)
    requires width > 0
    ensures ClockText(TimingLine.Padded(n, width))
  {
    DigitsAreClock(if n < 0 then -n else n);
    ZeroPadText(Itoa(if n < 0 then -n else n), if n < 0 then width - 1 else width);
    if n < 0 {
      ClockTextAppend("-", TimingLine.ZeroPad(Itoa(-n), width - 1));
    }
  }

  lemma FormatClockText(value: int, separator: char, hours: bool)
    requires separator in ",."
    ensures ClockText(TimingLine.FormatClock(value, separator, hours))
  {
    hide ClockText, TimingLine.Padded;
    var ms := TimingLine.Quotient(value, TimingLine.MILLISECOND);
    var m := TimingLine.Padded(TimingLine.Remainder(TimingLine.Quotient(ms, 60_000), 60), 2);
    var s := TimingLine.Padded(TimingLine.Remainder(TimingLine.Quotient(ms, 1000), 60), 2);
    var r := TimingLine.Padded(TimingLine.Remainder(ms, 1000), 3);
    var h := TimingLine.Padded(TimingLine.Quotient(ms, 3_600_000), 2);
    PaddedText(TimingLine.Remainder(TimingLine.Quotient(ms, 60_000), 60), 2);
    PaddedText(TimingLine.Remainder(TimingLine.Quotient(ms, 1000), 60), 2);
    PaddedText(TimingLine.Remainder(ms, 1000), 3);
    PaddedText(TimingLine.Quotient(ms, 3_600_000), 2);
    OneClockChar(':');
    OneClockChar(separator);
    ClockTextAppend(m, ":");
    ClockTextAppend(m + ":", s);
    ClockTextAppend(m + ":" + s, [separator]);
    ClockTextAppend(m + ":" + s + [separator], r);
    ClockTextAppend(h, ":");
    ClockTextAppend(h + ":", m + ":" + s + [separator] + r);
  }

  lemma OneClockChar(c: char)
    requires ClockChar(c)
    ensures ClockText([c])
  {
  }

  lemma ClockIsPlain(s: string)
    requires ClockText(s)
    ensures Plain(s)
  {
    assert !ClockChar('\n');
  }

  lemma RetimedIsPlain(line: string, start: int, end: int)
    requires Plain(line) && TimingLine.Retimed(line, start, end).Some?
    ensures Plain(TimingLine.Retimed(line, start, end).value)
  {
    hide Plain, ClockText, TimingLine.FormatClock, TimingLine.MatchTiming;
    var t := TimingLine.MatchTiming(line).value;
    var hours := t.hours1 != "" || t.hours2 != "" || start >= TimingLine.HOUR || end >= TimingLine.HOUR;
    TimingPieces(line);
    PiecesArePlain(line, t.arrow, t.settings);
    FormatClockText(start, t.separator, hours);
    FormatClockText(end, t.separator, hours);
    ClocksAreBetween(TimingLine.FormatClock(start, t.separator, hours), t.arrow, TimingLine.FormatClock(end, t.separator, hours), t.settings);
  }

  lemma PiecesArePlain(line: string, arrow: string, settings: string)
    requires Plain(line) && (forall c | c in arrow :: c in line) && |settings| <= |line| && line[|line| - |settings|..] == settings
    ensures Plain(arrow) && Plain(settings)
  {
    assert forall c | c in settings :: c in line;
  }

  lemma ClocksAreBetween(a: string, arrow: string, b: string, settings: string)
    requires ClockText(a) && ClockText(b) && Plain(arrow) && Plain(settings)
    ensures Plain(a + arrow + b + settings)
  {
    ClockIsPlain(a);
    ClockIsPlain(b);
  }

  /** What a match takes from the line: its separator, an arrow inside the line
      and the settings at its end. */
  lemma TimingPieces(line: string)
    requires TimingLine.MatchTiming(line).Some?
    ensures var t := TimingLine.MatchTiming(line).value;
            && t.separator in ",."
            && (forall c | c in t.arrow :: c in line)
            && |t.settings| <= |line| && line[|line| - |t.settings|..] == t.settings
  {
    hide TimingLine.MatchClock, TimingLine.ArrowLength;
    var from := TimingLine.MatchClock(line).value;
    RestIsTail(line);
    var n := TimingLine.ArrowLength(from.rest);
    RestIsTail(from.rest[n..]);
    var to := TimingLine.MatchClock(from.rest[n..]).value;
    TailOfTail(line, from.rest, n, to.rest);
  }

  lemma TailOfTail(line: string, rest: string, n: nat, tail: string)
    requires |rest| <= |line| && line[|line| - |rest|..] == rest && n <= |rest|
    requires |tail| <= |rest[n..]| && rest[n..][|rest[n..]| - |tail|..] == tail
    ensures line[|line| - |tail|..] == tail && forall c | c in rest[..n] :: c in line
  {
    assert forall c | c in rest[..n] :: c in rest;
    assert forall c | c in rest :: c in line;
  }

  lemma RestIsTail(s: string)
    requires TimingLine.MatchClock(s).Some?
    ensures var c := TimingLine.MatchClock(s).value; c.separator in ",." && |c.rest| <= |s| && s[|s| - |c.rest|..] == c.rest
  {
    hide TimingLine.MinuteClock;
    var n := TimingLine.DigitRun(s);
    if 0 < n < |s| && s[n] == ':' && TimingLine.MinuteClock(s[n + 1..], s[..n + 1]).Some? {
      MinuteRest(s[n + 1..], s[..n + 1]);
      assert s[n + 1..][9..] == s[n + 10..];
    } else {
      MinuteRest(s, "");
    }
  }

  lemma MinuteRest(s: string, hours: string)
    requires (forall i | 0 <= i < |hours| - 1 :: IsDigit(hours[i])) && TimingLine.MinuteClock(s, hours).Some?
    ensures var c := TimingLine.MinuteClock(s, hours).value; |s| >= 9 && c.separator in ",." && c.rest == s[9..]
  {
  }

  lemma {:induction false} NonBlankPlain(lines: seq<string>)
    requires AllPlain(lines)
    ensures AllPlain(NonBlank(lines))
  {
    hide Plain, Blank;
    if lines != [] {
      assert lines == [lines[0]] + lines[1..];
      NonBlankPlain(lines[1..]);
    }
  }

  lemma SlicePlain(lines: seq<string>, low: nat, high: nat)
    requires AllPlain(lines) && low <= high <= |lines|
    ensures AllPlain(lines[low..high])
  {
    hide Plain;
    assert forall line | line in lines[low..high] :: line in lines;
  }

  lemma UpdatePlain(lines: seq<string>, i: nat, line: string)
    requires AllPlain(lines) && i < |lines| && Plain(line)
    ensures AllPlain(lines[i := line])
  {
    hide Plain;
    forall x | x in lines[i := line] ensures Plain(x) {
      var j :| 0 <= j < |lines| && lines[i := line][j] == x;
      assert j != i ==> x == lines[j] && lines[j] in lines;
    }
  }

  lemma {:induction false} ClosingTags(n: int)
    ensures Plain(Repeat("</i>", n))
    decreases n
  {
    if n > 0 {
      ClosingTags(n - 1);
    }
  }

  lemma RecordPlain(job: Job, k: nat, i: nat)
    requires WellPlaced(job) && k < |job.blocks| && AllPlain(job.lines) && Record(job, k, i).Some?
    ensures AllPlain(Record(job, k, i).value)
  {
    hide Plain, Blank, TimingLine.Retimed, Balance, Repeat, Itoa, NonBlank;
    var b := job.blocks[k];
    SlicePlain(job.lines, b.start, b.end);
    NonBlankPlain(job.lines[b.start..b.end]);
    var record := CueLines(job.lines, b);
    var offset := b.timing - b.start;
    if job.cues[k].retime {
      assert record[offset] in record;
      RetimedIsPlain(record[offset], job.cues[k].start, job.cues[k].end);
      UpdatePlain(record, offset, TimingLine.Retimed(record[offset], job.cues[k].start, job.cues[k].end).value);
    }
    var timed := Timed(job, k).value;
    var last := |timed| - 1;
    if timed != [] {
      assert timed[last] in timed;
      ClosingTags(Balance(timed));
      MorePlain(timed[last], MissingItalics(timed));
      UpdatePlain(timed, last, timed[last] + MissingItalics(timed));
    }
    var closed := if job.close then Closed(timed) else timed;
    assert AllPlain(closed);
    if job.Indexed(k) && closed != [] {
      DigitsAreClock(i + 1);
      ClockIsPlain(Itoa(i + 1));
      UpdatePlain(closed, 0, Itoa(i + 1));
    }
  }

  lemma MorePlain(a: string, b: string)
    requires Plain(a) && Plain(b)
    ensures Plain(a + b)
  {
  }

  lemma EmptyIsBlank()
    ensures Blank("")
  {
    assert TrimSpace("") == "";
  }

  lemma {:induction false} OutputPlain(job: Job, order: seq<nat>, n: nat)
    requires WellPlaced(job) && n <= |order| <= |job.blocks| && (forall k | k in order :: k < |job.blocks|) && AllPlain(job.lines)
    requires Output(job, order, n).Some?
    ensures AllPlain(Output(job, order, n).value)
  {
    hide Plain, Record, AllPlain;
    if n == 0 {
      SlicePlain(job.lines, 0, job.blocks[0].start);
    } else {
      assert order[n - 1] in order;
      OutputPlain(job, order, n - 1);
      RecordPlain(job, order[n - 1], n - 1);
      var before, record := Output(job, order, n - 1).value, Record(job, order[n - 1], n - 1).value;
      if n > 1 {
        GapPlain(job, n - 1);
        AppendPlain(before, Gap(job, n - 1));
        AppendPlain(before + Gap(job, n - 1), record);
      } else {
        AppendPlain(before, record);
      }
    }
  }

  lemma AppendPlain(a: seq<string>, b: seq<string>)
    requires AllPlain(a) && AllPlain(b)
    ensures AllPlain(a + b)
  {
  }

  lemma GapPlain(job: Job, i: nat)
    requires WellPlaced(job) && 0 < i < |job.blocks| && AllPlain(job.lines)
    ensures AllPlain(Gap(job, i))
  {
    SlicePlain(job.lines, job.blocks[i - 1].end, job.blocks[i].start);
    assert Plain("");
  }

  /** A rewrite of plain lines writes plain lines. */
  lemma RewritePlain(job: Job, final: seq<string>)
    requires WellPlaced(job) && AllPlain(job.lines) && RewriteBlocks(job) == Rewritten(final)
    ensures AllPlain(final)
  {
    hide AllPlain, Output, KeptInStartOrder;
    var order := KeptInStartOrder(job.cues);
    StartOrderFacts(job.cues);
    OutputPlain(job, order, |order|);
    SlicePlain(job.lines, job.blocks[|job.blocks| - 1].end, |job.lines|);
    AppendPlain(Output(job, order, |order|).value, Tail(job, order)) by {
      assert job.lines[job.blocks[|job.blocks| - 1].end..|job.lines|] == job.lines[job.blocks[|job.blocks| - 1].end..];
      NoLinesPlain();
    }
  }

  lemma NoLinesPlain()
    ensures AllPlain([])
  {
  }

  // ---- text and lines ----------------------------------------------------

  lemma {:induction false} SplitLinesFacts(s: string)
    ensures Join(SplitLines(s), "\n") == s
    ensures forall line | line in SplitLines(s) :: '\n' !in line
  {
    if s != "" {
      SplitLinesFacts(s[1..]);
      var rest := SplitLines(s[1..]);
      assert s == [s[0]] + s[1..];
      assert rest == [rest[0]] + rest[1..];
      if s[0] == '\n' {
        assert ([""] + rest)[1..] == rest;
      } else {
        var lines := [[s[0]] + rest[0]] + rest[1..];
        assert lines[1..] == rest[1..];
        assert |rest| > 1 ==> [s[0]] + rest[0] + "\n" + Join(rest[1..], "\n") == [s[0]] + (rest[0] + "\n" + Join(rest[1..], "\n"));
      }
    }
  }

  lemma {:induction false} SplitFirst(line: string, rest: string)
    requires '\n' !in line
    ensures SplitLines(line + "\n" + rest) == [line] + SplitLines(rest)
  {
    var s := line + "\n" + rest;
    if line == "" {
      assert s == "\n" + rest && s[1..] == rest;
    } else {
      assert s[1..] == line[1..] + "\n" + rest && s[0] == line[0];
      SplitFirst(line[1..], rest);
      assert [line[0]] + line[1..] == line;
      assert ([line[1..]] + SplitLines(rest))[1..] == SplitLines(rest);
    }
  }

  lemma {:induction false} SplitOne(line: string)
    requires '\n' !in line
    ensures SplitLines(line) == [line]
  {
    if line != "" {
      SplitOne(line[1..]);
      assert [line[0]] + line[1..] == line;
    }
  }

  /** Joined lines split back into themselves. */
  lemma {:induction false} SplitJoined(lines: seq<string>)
    requires lines != [] && forall line | line in lines :: '\n' !in line
    ensures SplitLines(Join(lines, "\n")) == lines
  {
    assert lines[0] in lines;
    if |lines| == 1 {
      SplitOne(lines[0]);
    } else {
      assert forall line | line in lines[1..] :: line in lines;
      SplitJoined(lines[1..]);
      SplitFirst(lines[0], Join(lines[1..], "\n"));
    }
  }

  function Empties(n: nat): seq<string> { if n == 0 then [] else [""] + Empties(n - 1) }

  lemma {:induction false} EmptiesAppend(m: nat, n: nat)
    ensures Empties(m) + Empties(n) == Empties(m + n)
  {
    if m > 0 {
      EmptiesAppend(m - 1, n);
      assert [""] + Empties(m - 1) + Empties(n) == [""] + (Empties(m - 1) + Empties(n));
    } else {
      assert [] + Empties(n) == Empties(n);
    }
  }

  /** Lines are a core that ends with text, or is one empty line, and empty
      lines after it. */
  lemma {:induction false} Core(lines: seq<string>) returns (core: seq<string>, n: nat)
    requires lines != []
    ensures core != [] && lines == core + Empties(n) && (core == [""] || core[|core| - 1] != "")
  {
    core, n := lines, 0;
    if lines != [""] && lines[|lines| - 1] == "" {
      core, n := Core(lines[..|lines| - 1]);
      EmptiesAppend(n, 1);
      assert Empties(1) == [""] + Empties(0);
      assert lines == core + (Empties(n) + [""]);
      n := n + 1;
    }
  }

  lemma {:induction false} RepeatOne(n: nat)
    ensures Repeat("\n", n + 1) == Repeat("\n", n) + "\n"
  {
    if n > 0 {
      RepeatOne(n - 1);
      assert "\n" + (Repeat("\n", n - 1) + "\n") == "\n" + Repeat("\n", n - 1) + "\n";
    }
  }

  lemma {:induction false} JoinMore(a: seq<string>, line: string)
    requires a != []
    ensures Join(a + [line], "\n") == Join(a, "\n") + "\n" + line
  {
    if |a| > 1 {
      assert (a + [line])[1..] == a[1..] + [line];
      JoinMore(a[1..], line);
    }
  }

  lemma {:induction false} JoinEmpties(core: seq<string>, n: nat)
    requires core != []
    ensures Join(core + Empties(n), "\n") == Join(core, "\n") + Repeat("\n", n)
  {
    if n == 0 {
      assert core + [] == core;
    } else {
      JoinEmpties(core, n - 1);
      EmptiesAppend(n - 1, 1);
      assert Empties(1) == [""] + Empties(0);
      assert core + Empties(n) == core + Empties(n - 1) + [""];
      JoinMore(core + Empties(n - 1), "");
      RepeatOne(n - 1);
    }
  }

  lemma {:induction false} NewlinesComeOff(s: string, n: nat)
    requires s == "" || s[|s| - 1] != '\n'
    ensures FinalNewlines(s + Repeat("\n", n)) == n && |Repeat("\n", n)| == n
  {
    if n > 0 {
      NewlinesComeOff(s, n - 1);
      RepeatOne(n - 1);
      hide Repeat;
      var rest := s + Repeat("\n", n - 1);
      assert s + Repeat("\n", n) == rest + "\n";
      assert (rest + "\n")[..|rest|] == rest;
    } else {
      assert s + "" == s;
    }
  }

  // ---- what assembling and reading again loses ---------------------------

  function CutReturn(line: string): string {
    if line != "" && line[|line| - 1] == '\r' then line[..|line| - 1] else line
  }

  /** The lines once one carriage return is gone from the end of each that a
      newline follows. */
  function CutReturns(lines: seq<string>, last: bool): (cut: seq<string>)
    requires lines != []
    ensures |cut| == |lines|
  {
    if |lines| == 1 then [if last then CutReturn(lines[0]) else lines[0]]
    else [CutReturn(lines[0])] + CutReturns(lines[1..], last)
  }

  predicate StartsWithMark(line: string) { line != "" && line[0] == BOM }

  /** What assembled lines are when they are read again: without a byte order
      mark of their own, the text takes one at the front of its first line. */
  function ReadLines(bom: bool, lines: seq<string>, trailing: nat): (read: seq<string>)
    requires lines != []
    ensures |read| == |lines|
  {
    var cut := CutReturns(lines, trailing > 0);
    if !bom && StartsWithMark(cut[0]) then [cut[0][1..]] + cut[1..] else cut
  }

  lemma {:induction false} CutReturnsAt(lines: seq<string>, last: bool, i: nat)
    requires i < |lines|
    ensures CutReturns(lines, last)[i] == if i < |lines| - 1 || last then CutReturn(lines[i]) else lines[i]
  {
    if i > 0 {
      CutReturnsAt(lines[1..], last, i - 1);
    }
  }

  /** Nothing is lost exactly if no line that a newline follows ends in a
      carriage return, and no line without a mark before it begins with one. */
  lemma NothingLostExactly(bom: bool, lines: seq<string>, trailing: nat)
    requires lines != []
    ensures ReadLines(bom, lines, trailing) == lines <==>
              && (forall i | 0 <= i < |lines| && (i < |lines| - 1 || trailing > 0) :: lines[i] == "" || lines[i][|lines[i]| - 1] != '\r')
              && (bom || !StartsWithMark(lines[0]))
  {
    var cut, read := CutReturns(lines, trailing > 0), ReadLines(bom, lines, trailing);
    forall i | 0 <= i < |lines| ensures cut[i] == if i < |lines| - 1 || trailing > 0 then CutReturn(lines[i]) else lines[i] {
      CutReturnsAt(lines, trailing > 0, i);
    }
    assert forall i | 0 < i < |lines| :: read[i] == cut[i];
    assert |read[0]| <= |cut[0]| <= |lines[0]|;
  }

  lemma {:induction false} NormalizedLine(line: string, rest: string)
    requires Plain(line)
    ensures Normalized(line + "\n" + rest) == CutReturn(line) + "\n" + Normalized(rest)
  {
    var s := line + "\n" + rest;
    if line == "" {
      assert s == "\n" + rest && s[1..] == rest;
    } else if line == "\r" {
      assert s[0] == '\r' && s[1] == '\n' && s[2..] == rest;
    } else {
      assert s[0] == line[0] && s[1..] == line[1..] + "\n" + rest;
      assert |line| > 1 ==> s[1] == line[1] && line[1] in line;
      NormalizedLine(line[1..], rest);
      assert CutReturn(line) == [line[0]] + CutReturn(line[1..]);
    }
  }

  lemma {:induction false} NormalizedOne(line: string)
    requires Plain(line)
    ensures Normalized(line) == line
  {
    if line != "" {
      assert |line| > 1 ==> line[1] in line;
      NormalizedOne(line[1..]);
      assert line == [line[0]] + line[1..];
    }
  }

  lemma {:induction false} NormalizedNewlines(n: nat)
    ensures Normalized(Repeat("\n", n)) == Repeat("\n", n)
  {
    if n > 0 {
      NormalizedNewlines(n - 1);
      assert Repeat("\n", n)[1..] == Repeat("\n", n - 1);
    }
  }

  lemma {:induction false} NormalizedJoined(lines: seq<string>, n: nat)
    requires lines != [] && AllPlain(lines)
    ensures Normalized(Join(lines, "\n") + Repeat("\n", n)) == Join(CutReturns(lines, n > 0), "\n") + Repeat("\n", n)
  {
    hide Normalized, Plain, CutReturn;
    assert lines[0] in lines;
    if |lines| > 1 {
      SlicePlain(lines, 1, |lines|);
      NormalizedJoined(lines[1..], n);
      var rest := Join(lines[1..], "\n") + Repeat("\n", n);
      NormalizedLine(lines[0], rest);
      assert Join(lines, "\n") + Repeat("\n", n) == lines[0] + "\n" + rest;
      var cut := CutReturns(lines, n > 0);
      assert cut[1..] == CutReturns(lines[1..], n > 0);
      assert Join(cut, "\n") == CutReturn(lines[0]) + "\n" + Join(cut[1..], "\n");
    } else if n == 0 {
      NormalizedOne(lines[0]);
      assert lines[0] + "" == lines[0];
    } else {
      NormalizedLine(lines[0], Repeat("\n", n - 1));
      NormalizedNewlines(n - 1);
      assert lines[0] + Repeat("\n", n) == lines[0] + "\n" + Repeat("\n", n - 1);
    }
  }

  lemma NormalizedMark(s: string)
    ensures Normalized([BOM] + s) == [BOM] + Normalized(s)
  {
    assert ([BOM] + s)[1..] == s;
  }

  /** What is read again is plain, and its text is that of the assembled lines. */
  lemma ReadLinesText(bom: bool, lines: seq<string>, trailing: nat)
    requires lines != [] && AllPlain(lines)
    ensures var read := ReadLines(bom, lines, trailing);
            && AllPlain(read)
            && (bom || StartsWithMark(CutReturns(lines, trailing > 0)[0]) || !StartsWithMark(read[0]))
            && Normalized(Assembled(bom, lines, trailing))
               == (if bom || StartsWithMark(CutReturns(lines, trailing > 0)[0]) then [BOM] else "") + (Join(read, "\n") + Repeat("\n", trailing))
  {
    hide Normalized;
    var cut, read := CutReturns(lines, trailing > 0), ReadLines(bom, lines, trailing);
    var newlines := Repeat("\n", trailing);
    NormalizedJoined(lines, trailing);
    NormalizedMark(Join(lines, "\n") + newlines);
    assert "" + Join(lines, "\n") + newlines == Join(lines, "\n") + newlines;
    assert [BOM] + Join(lines, "\n") + newlines == [BOM] + (Join(lines, "\n") + newlines);
    CutIsPlain(lines, trailing > 0);
    hide Plain, Repeat;
    if !bom && StartsWithMark(cut[0]) {
      MarkInFront(cut, read);
      hide AllPlain;
      assert [BOM] + Join(read, "\n") + newlines == [BOM] + (Join(read, "\n") + newlines);
    } else {
      assert "" + (Join(read, "\n") + newlines) == Join(read, "\n") + newlines;
    }
  }

  lemma MarkInFront(cut: seq<string>, read: seq<string>)
    requires cut != [] && AllPlain(cut) && StartsWithMark(cut[0]) && read == [cut[0][1..]] + cut[1..]
    ensures AllPlain(read) && Join(cut, "\n") == [BOM] + Join(read, "\n")
  {
    assert cut[0] == [BOM] + read[0] && read[1..] == cut[1..] && cut[0] in cut;
    assert forall line | line in read :: line == read[0] || line in cut;
  }

  lemma CutIsPlain(lines: seq<string>, last: bool)
    requires lines != [] && AllPlain(lines)
    ensures AllPlain(CutReturns(lines, last))
  {
    var cut := CutReturns(lines, last);
    forall line | line in cut ensures Plain(line) {
      var i :| 0 <= i < |cut| && cut[i] == line;
      CutReturnsAt(lines, last, i);
      assert lines[i] in lines;
    }
  }

  lemma {:induction false} JoinedEnds(lines: seq<string>)
    requires lines != [] && AllPlain(lines)
    ensures var s := Join(lines, "\n");
            && (StartsWithMark(s) ==> StartsWithMark(lines[0]))
            && (lines[|lines| - 1] != "" ==> s != "" && s[|s| - 1] != '\n')
  {
    assert lines[0] in lines;
    if |lines| > 1 {
      SlicePlain(lines, 1, |lines|);
      JoinedEnds(lines[1..]);
    }
  }

  lemma {:induction false} RepeatedNewlines(n: nat)
    ensures forall i | 0 <= i < |Repeat("\n", n)| :: Repeat("\n", n)[i] == '\n'
  {
    if n > 0 {
      RepeatedNewlines(n - 1);
    }
  }

  /** Assembled lines come apart again into what is read of them, but for empty
      lines at the end, which count as final newlines. */
  lemma AssembledComesApart(bom: bool, lines: seq<string>, trailing: nat) returns (core: seq<string>, n: nat)
    requires lines != [] && AllPlain(lines)
    ensures core != [] && ReadLines(bom, lines, trailing) == core + Empties(n)
    ensures LinesOf(Assembled(bom, lines, trailing)) == core
  {
    hide Plain, Normalized, Repeat, Join, SplitLines, ReadLines, CutReturns, Assembled, StartsWithMark;
    var read := ReadLines(bom, lines, trailing);
    var mark := bom || StartsWithMark(CutReturns(lines, trailing > 0)[0]);
    ReadLinesText(bom, lines, trailing);
    core, n := Core(read);
    CorePlain(core, n);
    JoinEmpties(core, n);
    JoinedEnds(core);
    RepeatSum(n, trailing);
    var joined := Join(core, "\n");
    assert Join(read, "\n") + Repeat("\n", trailing) == joined + (Repeat("\n", n) + Repeat("\n", trailing));
    CoreFront(core, n);
    CoreEndsInText(core, joined);
    BodyComesApart(mark, joined, n + trailing, Assembled(bom, lines, trailing));
    SplitJoined(core);
  }

  lemma CoreFront(core: seq<string>, n: nat)
    requires core != []
    ensures (core + Empties(n))[0] == core[0]
  {
  }

  lemma CorePlain(core: seq<string>, n: nat)
    requires AllPlain(core + Empties(n))
    ensures AllPlain(core) && forall line | line in core :: '\n' !in line
  {
    assert forall line | line in core :: line in core + Empties(n);
  }

  lemma CoreEndsInText(core: seq<string>, joined: string)
    requires core != [] && joined == Join(core, "\n") && (core == [""] || core[|core| - 1] != "")
    requires core[|core| - 1] != "" ==> joined != "" && joined[|joined| - 1] != '\n'
    ensures joined == "" || joined[|joined| - 1] != '\n'
  {
  }

  lemma {:induction false} RepeatSum(m: nat, n: nat)
    ensures Repeat("\n", m) + Repeat("\n", n) == Repeat("\n", m + n)
  {
    if m > 0 {
      RepeatSum(m - 1, n);
      assert "\n" + Repeat("\n", m - 1) + Repeat("\n", n) == "\n" + (Repeat("\n", m - 1) + Repeat("\n", n));
    } else {
      assert "" + Repeat("\n", n) == Repeat("\n", n);
    }
  }

  lemma BodyComesApart(mark: bool, joined: string, n: nat, text: string)
    requires joined == "" || joined[|joined| - 1] != '\n'
    requires mark || !StartsWithMark(joined)
    requires Normalized(text) == (if mark then [BOM] else "") + (joined + Repeat("\n", n))
    ensures SplitContent(text) == Parts(joined, mark, n)
  {
    hide Normalized;
    var body := joined + Repeat("\n", n);
    var all := Normalized(text);
    NewlinesComeOff(joined, n);
    RepeatedNewlines(n);
    assert !mark ==> all == body && (body == "" || body[0] != BOM);
    assert mark ==> all[0] == BOM && all[1..] == body;
    assert body[..|body| - n] == joined;
  }

  // ---- lines of the same kind --------------------------------------------

  /** Reading and the cue scanner do not tell the lines apart; the first line of
      a file is never asked whether it is a number. */
  ghost predicate SameKinds(a: seq<string>, b: seq<string>) {
    && |a| == |b|
    && (forall i | 0 <= i < |a| :: Blank(a[i]) <==> Blank(b[i]))
    && (forall i | 0 <= i < |a| :: IsTimingLine(a[i], false) <==> IsTimingLine(b[i], false))
    && (forall i | 0 < i < |a| :: IsNumber(TrimSpace(a[i])) <==> IsNumber(TrimSpace(b[i])))
  }

  lemma SameCues(a: seq<string>, b: seq<string>, blocks: seq<CueBlock>)
    requires SameKinds(a, b) && IsCueList(a, false, blocks)
    ensures IsCueList(b, false, blocks) && (Ambiguous(b, false, blocks) <==> Ambiguous(a, false, blocks))
  {
    hide IsTimingLine, Blank, IsNumber, TrimSpace;
    SameTimings(a, b, |a|);
    forall k | 0 <= k < |blocks| ensures StartsRight(b, false, blocks, k) && EndsRight(b, false, blocks, k) {
      assert StartsRight(a, false, blocks, k) && EndsRight(a, false, blocks, k);
      assert Limit(a, blocks, k) == Limit(b, blocks, k);
    }
    assert forall k | 0 <= k < |blocks| :: IndexIsText(a, blocks[k]) <==> IndexIsText(b, blocks[k]);
  }

  lemma {:induction false} SameTimings(a: seq<string>, b: seq<string>, to: nat)
    requires SameKinds(a, b) && to <= |a|
    ensures Timings(a, false, 0, to) == Timings(b, false, 0, to)
  {
    hide IsTimingLine, Blank, IsNumber, TrimSpace;
    if to > 0 {
      SameTimings(a, b, to - 1);
    }
  }

  lemma ReturnIsSpace(line: string)
    ensures Blank(CutReturn(line)) <==> Blank(line)
    ensures IsTimingLine(CutReturn(line), false) <==> IsTimingLine(line, false)
    ensures TrimSpace(CutReturn(line)) == TrimSpace(line)
  {
    hide IsTimingLine;
    if CutReturn(line) != line {
      var cut := CutReturn(line);
      assert line == cut + "\r";
      TrimReturn(cut);
      TimingMeansArrow(line);
      TimingMeansArrow(cut);
      hide Contains, TrimSpace, TrimLeft, TrimRight;
      assert "\r"[0] == '\r' && '\r' !in ARROW;
      ContainsNeeds("\r", ARROW, 0);
      ContainsAppend(cut, "\r", ARROW);
    }
  }

  lemma {:induction false} TrimReturn(s: string)
    ensures TrimSpace(s + "\r") == TrimSpace(s)
  {
    var t := s + "\r";
    if s == "" {
      assert TrimLeft(t) == TrimLeft(t[1..]) == "" by { assert t[1..] == ""; }
    } else if IsSpace(s[0]) {
      assert t[1..] == s[1..] + "\r" && t[0] == s[0];
      TrimReturn(s[1..]);
    } else {
      assert t[..|t| - 1] == s && t[0] == s[0];
    }
  }

  /** A timing line stays one without the mark before it. */
  lemma MarkIsNoArrow(line: string)
    requires StartsWithMark(line) && IsTimingLine(line, false)
    ensures IsTimingLine(line[1..], false) && !Blank(line[1..]) && !Blank(line)
  {
    hide IsTimingLine, Blank;
    TimingMeansArrow(line);
    TimingMeansArrow(line[1..]);
    assert !(ARROW <= line) by { assert ARROW[0] == '-'; }
    ArrowIsText(line);
    ArrowIsText(line[1..]);
  }

  lemma ArrowIsText(line: string)
    requires Contains(line, ARROW)
    ensures !Blank(line)
  {
    hide Blank;
    ContainsIsOccurrence(line, ARROW);
    var k: nat :| At(line, ARROW, k);
    assert line[k..k + |ARROW|] == ARROW;
    assert line[k] == line[k..k + |ARROW|][0] == '-';
    NonSpaceMeansNotBlank(line, k);
  }

  /** What is read of lines is of the same kind as the lines, as long as a mark
      is taken from a timing line only. */
  lemma ReadIsSameKind(bom: bool, lines: seq<string>, trailing: nat)
    requires lines != [] && (bom || !StartsWithMark(lines[0]) || IsTimingLine(lines[0], false))
    ensures SameKinds(lines, ReadLines(bom, lines, trailing))
  {
    hide IsTimingLine, Blank, IsNumber, TrimSpace, CutReturns;
    var cut, read := CutReturns(lines, trailing > 0), ReadLines(bom, lines, trailing);
    forall i | 0 <= i < |lines|
      ensures cut[i] == lines[i] || cut[i] == CutReturn(lines[i])
      ensures Blank(cut[i]) <==> Blank(lines[i])
      ensures IsTimingLine(cut[i], false) <==> IsTimingLine(lines[i], false)
      ensures IsNumber(TrimSpace(cut[i])) <==> IsNumber(TrimSpace(lines[i]))
    {
      CutReturnsAt(lines, trailing > 0, i);
      ReturnIsSpace(lines[i]);
    }
    if !bom && StartsWithMark(cut[0]) {
      assert StartsWithMark(lines[0]);
      MarkIsNoArrow(cut[0]);
    }
    assert forall i | 0 < i < |lines| :: read[i] == cut[i];
  }

  /** A text without a mark has none at the front of its lines. */
  lemma NoMarkAtFront(text: string)
    ensures !SplitContent(text).bom ==> !StartsWithMark(LinesOf(text)[0])
  {
    SplitFront(SplitContent(text).content);
  }

  lemma SplitFront(s: string)
    ensures StartsWithMark(SplitLines(s)[0]) ==> StartsWithMark(s)
  {
  }

  /** When a rewritten text without a mark begins with one, its first line is a
      timing line that came to the front. */
  lemma MarkComesWithTiming(text: string, job: Job, final: seq<string>)
    requires job.Valid() && job.format == Srt && WellPlaced(job) && job.lines == LinesOf(text) && !SplitContent(text).bom
    requires RewriteBlocks(job) == Rewritten(final) && final != []
    ensures StartsWithMark(final[0]) ==> IsTimingLine(final[0], false)
  {
    hide IsTimingLine, Blank, IsNumber, IsCueList, Record, Gap, KeptInStartOrder, LinesOf, SplitContent, Itoa;
    NoMarkAtFront(text);
    var order := KeptInStartOrder(job.cues);
    StartOrderFacts(job.cues);
    var front := job.lines[..job.blocks[0].start];
    if order == [] {
      assert final == front + [] == front;
      assert final[0] == job.lines[0];
    } else {
      FirstRecordPlace(job, order, |order|);
      assert order[0] in order;
      var record := Record(job, order[0], 0).value;
      assert front + record <= final by {
        assert Output(job, order, |order|).value <= final;
      }
      RecordReadsAsCue(job, order[0], 0);
      IndexLine(job, order[0], 0);
      if front != [] {
        assert final[0] == (front + record)[0] == job.lines[0];
      } else {
        assert final[0] == (front + record)[0] == record[0];
        assert IsDigit(Itoa(1)[0]);
      }
    }
  }

  // ---- reading a repaired text -------------------------------------------

  function Again(text: string, final: seq<string>): string { Assembled(SplitContent(text).bom, final, SplitContent(text).trailing) }

  /** Reading the text of a rewritten SRT file gives exactly the kept records in
      stable start order, unambiguously, if and only if no text stands right
      before a first record that has no index line. The records are those of
      the written lines; what is read of a line is in ReadLines. */
  lemma RepairedTextReadsAsKept(text: string, job: Job, final: seq<string>, read: seq<CueBlock>)
    requires job.Valid() && job.format == Srt && WellPlaced(job) && job.lines == LinesOf(text)
    requires RewriteBlocks(job) == Rewritten(final)
    requires IsCueList(LinesOf(Again(text, final)), false, read)
    ensures IsCueList(final, false, read)
    ensures ReadsAsKept(job, final, read) <==> FrontReads(job)
    ensures FrontReads(job) ==> !Ambiguous(LinesOf(Again(text, final)), false, read)
  {
    hide IsCueList, RewriteBlocks, Ambiguous, LinesOf, SplitContent, Assembled;
    ReadBack(text, job, final, read);
    RewrittenReadsAsKept(job, final, read);
  }

  lemma LinesArePlain(text: string)
    ensures AllPlain(LinesOf(text))
  {
    SplitLinesFacts(SplitContent(text).content);
  }

  /** The cues of a rewritten text are the cues of the lines written. */
  lemma ReadBack(text: string, job: Job, final: seq<string>, read: seq<CueBlock>)
    requires job.Valid() && job.format == Srt && WellPlaced(job) && job.lines == LinesOf(text)
    requires RewriteBlocks(job) == Rewritten(final) && IsCueList(LinesOf(Again(text, final)), false, read)
    ensures IsCueList(final, false, read) && (Ambiguous(LinesOf(Again(text, final)), false, read) ==> Ambiguous(final, false, read))
  {
    hide IsCueList, RewriteBlocks, Ambiguous, AllPlain, LinesOf, SplitContent, Assembled, SameKinds, ReadLines, StartsWithMark, IsTimingLine;
    LinesArePlain(text);
    RewritePlain(job, final);
    var bom, trailing := SplitContent(text).bom, SplitContent(text).trailing;
    if final == [] {
      NothingAssembled(bom, trailing);
      NoCuesInNothing(read);
    } else {
      if !bom {
        MarkComesWithTiming(text, job, final);
      }
      ReadIsSameKind(bom, final, trailing);
      var core, n := AssembledComesApart(bom, final, trailing);
      EmptiesAreBlank(n);
      AppendBlank(core, read, Empties(n));
      AmbiguityStays(core, n, read);
      SameKindsBack(final, ReadLines(bom, final, trailing));
      SameCues(ReadLines(bom, final, trailing), final, read);
    }
  }

  lemma SameKindsBack(a: seq<string>, b: seq<string>)
    requires SameKinds(a, b)
    ensures SameKinds(b, a)
  {
    hide IsTimingLine, Blank, IsNumber, TrimSpace;
  }

  lemma NothingAssembled(bom: bool, trailing: nat)
    ensures Assembled(bom, [], trailing) == Assembled(bom, [""], trailing)
    ensures LinesOf(Assembled(bom, [], trailing)) == [""]
  {
    assert AllPlain([""]);
    assert ReadLines(bom, [""], trailing) == [""];
    var core, n := AssembledComesApart(bom, [""], trailing);
    EmptiesAreBlank(n);
    assert |core| + n == 1;
    assert core == [""];
  }

  lemma NoCuesInNothing(read: seq<CueBlock>)
    requires IsCueList([""], false, read)
    ensures read == [] && IsCueList([], false, read) && !Ambiguous([""], false, read)
  {
    hide IsTimingLine;
    assert IsCueList([], false, []);
    EmptiesAreBlank(1);
    assert Empties(1) == [""] + Empties(0);
    AppendBlank([], [], Empties(1));
    assert [] + Empties(1) == [""];
    CueListUnique([""], false, read, []);
  }

  lemma {:induction false} EmptiesAreBlank(n: nat)
    ensures AllBlank(Empties(n)) && |Empties(n)| == n
  {
    EmptyIsBlank();
    hide Blank;
    if n > 0 {
      EmptiesAreBlank(n - 1);
    }
  }

  lemma AmbiguityStays(core: seq<string>, n: nat, read: seq<CueBlock>)
    requires IsCueList(core, false, read)
    ensures Ambiguous(core, false, read) <==> Ambiguous(core + Empties(n), false, read)
  {
    hide IsCueList, IndexIsText;
    forall k | 0 <= k < |read| ensures IndexIsText(core, read[k]) <==> IndexIsText(core + Empties(n), read[k]) {
      BlockShape(core, false, read, k);
      SameIndex(core, core + Empties(n), read[k]);
    }
  }

  lemma SameIndex(core: seq<string>, more: seq<string>, block: CueBlock)
    requires core <= more && block.start <= block.timing < |core|
    ensures IndexIsText(core, block) <==> IndexIsText(more, block)
  {
    hide IsTimingLine, IsNumber, Blank, TrimSpace;
    assert forall i | 0 <= i < |core| :: core[i] == more[i];
  }

  // ---- repairing a repaired text -----------------------------------------

  lemma ReturnIsNoTag(line: string, tag: string)
    requires tag in ["<i>", "</i>"]
    ensures TagCount([CutReturn(line)], tag) == TagCount([line], tag)
  {
    hide Count, Lower;
    if CutReturn(line) != line {
      var cut := CutReturn(line);
      assert line == cut + "\r";
      LowerAppend(cut, "\r");
      assert Lower("\r") == "\r";
      CountAppend(Lower(cut), "\r", tag);
      SecondRepair.NoTagWithout("\r", tag);
    }
  }

  lemma MarkIsNoTag(line: string, tag: string)
    requires tag in ["<i>", "</i>"] && StartsWithMark(line)
    ensures TagCount([line[1..]], tag) == TagCount([line], tag)
  {
    LowerAppend([BOM], line[1..]);
    assert line == [BOM] + line[1..] && Lower([BOM]) == [BOM];
    assert Lower(line)[1..] == Lower(line[1..]) && !(tag <= Lower(line));
  }

  /** What reading loses of a line holds no tag. */
  ghost predicate SameTags(a: seq<string>, b: seq<string>) {
    |a| == |b| && forall i | 0 <= i < |a| :: TagCount([a[i]], "<i>") == TagCount([b[i]], "<i>") && TagCount([a[i]], "</i>") == TagCount([b[i]], "</i>")
  }

  lemma ReadHasSameTags(bom: bool, lines: seq<string>, trailing: nat)
    requires lines != []
    ensures SameTags(lines, ReadLines(bom, lines, trailing))
  {
    hide TagCount, CutReturns;
    var cut, read := CutReturns(lines, trailing > 0), ReadLines(bom, lines, trailing);
    forall i | 0 <= i < |lines|
      ensures TagCount([lines[i]], "<i>") == TagCount([cut[i]], "<i>") && TagCount([lines[i]], "</i>") == TagCount([cut[i]], "</i>")
    {
      CutReturnsAt(lines, trailing > 0, i);
      ReturnIsNoTag(lines[i], "<i>");
      ReturnIsNoTag(lines[i], "</i>");
    }
    if !bom && StartsWithMark(cut[0]) {
      MarkIsNoTag(cut[0], "<i>");
      MarkIsNoTag(cut[0], "</i>");
    }
    assert forall i | 0 < i < |lines| :: read[i] == cut[i];
  }

  lemma {:induction false} SameTagsSameBalance(a: seq<string>, b: seq<string>)
    requires SameTags(a, b)
    ensures Balance(a) == Balance(b)
  {
    hide TagCount;
    if a == [] {
    } else if |a| == 1 {
      assert a == [a[0]] && b == [b[0]];
    } else {
      SameTagsSameBalance(a[1..], b[1..]);
      assert a == [a[0]] + a[1..] && b == [b[0]] + b[1..];
      SecondRepair.BalanceCons(a[0], a[1..]);
      SecondRepair.BalanceCons(b[0], b[1..]);
    }
  }

  /** Repairing the repaired text again, with the kept cues unmarked, returns it
      as it is, if and only if no kept record's index line closed italics that
      its text opens. */
  lemma SecondRepairKeepsText(text: string, job: Job, final: seq<string>, read: seq<CueBlock>)
    requires job.Valid() && job.format == Srt && job.close && WellPlaced(job) && job.lines == LinesOf(text) && FrontReads(job)
    requires RewriteBlocks(job) == Rewritten(final)
    requires IsCueList(LinesOf(Again(text, final)), false, read)
    ensures var order := KeptInStartOrder(job.cues);
            (forall k | k in order :: k < |job.cues|) &&
            (TextOf(Again(text, final), Rewrite(Job(LinesOf(Again(text, final)), Srt, SecondRepair.Unmarked(job.cues, order), true, read))) == SameText <==>
             forall k | k in order :: !SecondRepair.IndexClosesItalics(job, k))
  {
    hide IsCueList, RewriteBlocks, Ambiguous, LinesOf, SplitContent, Assembled, KeptInStartOrder, SecondRepair.IndexClosesItalics, MissingItalics;
    RepairedTextReadsAsKept(text, job, final, read);
    SecondRepair.SecondRepairChangesNothing(job, final, read);
    var order := KeptInStartOrder(job.cues);
    var cues := SecondRepair.Unmarked(job.cues, order);
    LinesArePlain(text);
    RewritePlain(job, final);
    SameUnclosed(SplitContent(text).bom, final, SplitContent(text).trailing, read);
    UnchangedExactly(final, LinesOf(Again(text, final)), cues, read);
  }

  lemma SameUnclosed(bom: bool, final: seq<string>, trailing: nat, read: seq<CueBlock>)
    requires AllPlain(final) && IsCueList(LinesOf(Assembled(bom, final, trailing)), false, read) && IsCueList(final, false, read)
    ensures var again := LinesOf(Assembled(bom, final, trailing));
            && (forall k | 0 <= k < |read| :: read[k].start <= read[k].end <= |again| && read[k].end <= |final|)
            && (HasUnclosedItalics(again, read) <==> HasUnclosedItalics(final, read))
  {
    hide IsCueList, AllPlain, LinesOf, Assembled, MissingItalics, ReadLines;
    if final == [] {
      NothingAssembled(bom, trailing);
      NoCuesInNothing(read);
    } else {
      var core, n := AssembledComesApart(bom, final, trailing);
      ReadHasSameTags(bom, final, trailing);
      forall k | 0 <= k < |read|
        ensures read[k].start <= read[k].end <= |core| <= |final|
        ensures MissingItalics(core[read[k].start..read[k].end]) == MissingItalics(final[read[k].start..read[k].end])
      {
        BlockShape(core, false, read, k);
        SameItalics(core, n, final, read[k].start, read[k].end);
      }
    }
  }

  lemma SameItalics(core: seq<string>, n: nat, final: seq<string>, low: nat, high: nat)
    requires SameTags(final, core + Empties(n)) && low <= high <= |core|
    ensures high <= |final| && MissingItalics(core[low..high]) == MissingItalics(final[low..high])
  {
    hide TagCount;
    EmptiesAreBlank(n);
    assert forall i | 0 <= i < |core| :: (core + Empties(n))[i] == core[i];
    SameTagsSameBalance(final[low..high], core[low..high]);
  }

  lemma UnchangedExactly(final: seq<string>, again: seq<string>, cues: seq<Cue>, read: seq<CueBlock>)
    requires IsCueList(final, false, read) && IsCueList(again, false, read)
    requires forall k | 0 <= k < |read| :: read[k].start <= read[k].end <= |again| && read[k].end <= |final|
    requires HasUnclosedItalics(again, read) <==> HasUnclosedItalics(final, read)
    ensures Rewrite(Job(again, Srt, cues, true, read)) == Unchanged <==> Rewrite(Job(final, Srt, cues, true, read)) == Unchanged
  {
    hide IsCueList, HasUnclosedItalics, Ambiguous, RewriteBlocks;
  }
}
