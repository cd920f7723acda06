/** The lines of an ASS or SSA subtitle: what each is by its header, and how a
    Dialogue line is retimed in the fields of its format
    (internal/subtitleorder/order.go:246-370). */
module DialogueFields {
  import opened Text
  import opened SubtitleRewrite
  import opened DialogueRewrite
  import SubtitleText
  import TimingLine

  /** The text before and after the first occurrence of a character. */
  function CutAt(s: string, c: char): (r: Option<(string, string)>)
    ensures r.Some? ==> s == r.value.0 + [c] + r.value.1 && c !in r.value.0
    ensures r.None? ==> c !in s
  {
    if s == "" then None
    else if s[0] == c then Some(("", s[1..]))
    else
      match CutAt(s[1..], c)
      case None => None
      case Some(p) => Some(([s[0]] + p.0, p.1))
  }

  function Header(line: string): string {
    var t := TrimSpace(line);
    var cut := CutAt(t, ':');
    TrimSpace(if cut.Some? then cut.value.0 else t)
  }

  function Value(line: string): string {
    var cut := CutAt(TrimSpace(line), ':');
    if cut.Some? then cut.value.1 else ""
  }

  function RowOf(line: string): (row: Row)
    ensures row.text == line
  {
    if Header(line) == "Format" then FormatRow(line, TrimSpace(Value(line)))
    else if Header(line) == "Dialogue" then Dialogue(line)
    else OtherRow(line)
  }

  function RowsOf(lines: seq<string>): (rows: seq<Row>)
    ensures |rows| == |lines| && forall i | 0 <= i < |lines| :: rows[i] == RowOf(lines[i])
  {
    seq(|lines|, i requires 0 <= i < |lines| => RowOf(lines[i]))
  }

  /** The parts of a text between commas, the last with whatever is left. */
  function SplitN(s: string, n: nat): (parts: seq<string>)
    requires n > 0
    ensures 1 <= |parts| <= n
    decreases n
  {
    var cut := CutAt(s, ',');
    if n == 1 || cut.None? then [s] else [cut.value.0] + SplitN(cut.value.1, n - 1)
  }

  /** The names of a format, as many as it has commas and one more. */
  function Names(format: string): (names: seq<string>)
    ensures names != []
  {
    var fields := SplitN(format, |format| + 1);
    seq(|fields|, i requires 0 <= i < |fields| => Lower(TrimSpace(fields[i])))
  }

  /** The last place of a name. */
  function PlaceOf(names: seq<string>, name: string): (place: Option<nat>)
    ensures place.Some? ==> place.value < |names| && names[place.value] == name
  {
    if names == [] then None
    else if names[|names| - 1] == name then Some(|names| - 1)
    else PlaceOf(names[..|names| - 1], name)
  }

  /** How many spaces a text begins with. */
  function Leading(s: string): (n: nat)
    ensures n <= |s| && (n < |s| ==> s[n] != ' ') && forall i | 0 <= i < n :: s[i] == ' '
  {
    if s != "" && s[0] == ' ' then 1 + Leading(s[1..]) else 0
  }

  function IntText(n: int): string { if n < 0 then "-" + Itoa(-n) else Itoa(n) }

  function FormatAss(value: int): string {
    var c := TimingLine.Quotient(TimingLine.Quotient(value, TimingLine.MILLISECOND), 10);
    IntText(TimingLine.Quotient(c, 360_000)) + ":" + TimingLine.Padded(TimingLine.Remainder(TimingLine.Quotient(c, 6000), 60), 2) + ":"
    + TimingLine.Padded(TimingLine.Remainder(TimingLine.Quotient(c, 100), 60), 2) + "." + TimingLine.Padded(TimingLine.Remainder(c, 100), 2)
  }

  /** A Dialogue line with new times in the fields its format names. */
  function RetimedDialogue(record: string, format: string, start: int, end: int): Option<string> {
    var names, cut := Names(format), CutAt(record, ':');
    var s, e := PlaceOf(names, "start"), PlaceOf(names, "end");
    if cut.None? || s.None? || e.None? then None
    else
      var lead := Leading(cut.value.1);
      var fields := SplitN(cut.value.1[lead..], |names|);
      if |fields| != |names| then None
      else
        Some(cut.value.0 + ":" + (cut.value.1[..lead] + Join(fields[s.value := FormatAss(start)][e.value := FormatAss(end)], ",")))
  }

  /** The fields of a Dialogue line with a format. */
  function FieldsOf(record: string, format: string): Option<seq<string>> {
    var cut := CutAt(record, ':');
    if cut.None? then None
    else
      var fields := SplitN(cut.value.1[Leading(cut.value.1)..], |Names(format)|);
      if |fields| == |Names(format)| then Some(fields) else None
  }

  const RETIME: Retiming := (record, format, start, end) => RetimedDialogue(record, format, start, end)

  /** What repairing an ASS or SSA text gives. */
  ghost function Outcome(text: string, cues: seq<Cue>): SubtitleText.TextOutcome {
    if InStartOrder(cues) && !HasEdits(cues) then SubtitleText.SameText
    else
      match Repaired(RowsOf(SubtitleText.LinesOf(text)), cues, RETIME)
      case Refused => SubtitleText.UnsafeText
      case Done(lines) => SubtitleText.NewText(SubtitleText.Assembled(SubtitleText.SplitContent(text).bom, lines, SubtitleText.SplitContent(text).trailing))
  }

  method RepairText(text: string, cues: seq<Cue>) returns (r: SubtitleText.TextOutcome)
    ensures r == Outcome(text, cues)
    ensures r == SubtitleText.SameText <==> CuesRight(cues)
  {
    hide Repaired, SubtitleText.SplitContent;
    RightCues(cues);
    if InStartOrder(cues) && !HasEdits(cues) {
      return SubtitleText.SameText;
    }
    var parts := SubtitleText.SplitContent(text);
    var lines := SubtitleText.SplitLines(parts.content);
    var outcome := RepairDialogue(RowsOf(lines), cues, RETIME);
    match outcome
    case Refused => r := SubtitleText.UnsafeText;
    case Done(final) => r := SubtitleText.NewText(SubtitleText.Assembled(parts.bom, final, parts.trailing));
  }

  // ---- cutting and joining -----------------------------------------------

  lemma {:induction false} CutFirst(a: string, c: char, b: string)
    requires c !in a
    ensures CutAt(a + [c] + b, c) == Some((a, b))
  {
    var s := a + [c] + b;
    if a == "" {
      assert s[0] == c && s[1..] == b;
    } else {
      assert s[0] == a[0] && s[1..] == a[1..] + [c] + b;
      CutFirst(a[1..], c, b);
      assert [a[0]] + a[1..] == a;
    }
  }

  ghost predicate OneEach(fields: seq<string>) {
    forall i | 0 <= i < |fields| - 1 :: ',' !in fields[i]
  }

  lemma {:induction false} SplitFacts(s: string, n: nat)
    requires n > 0
    ensures OneEach(SplitN(s, n)) && Join(SplitN(s, n), ",") == s
    decreases n
  {
    var cut := CutAt(s, ',');
    if n > 1 && cut.Some? {
      var rest := SplitN(cut.value.1, n - 1);
      SplitFacts(cut.value.1, n - 1);
      var all := [cut.value.0] + rest;
      assert all[1..] == rest;
      forall i | 0 <= i < |all| - 1 ensures ',' !in all[i] {
        assert i > 0 ==> all[i] == rest[i - 1];
      }
    }
  }

  /** Joined fields split again into themselves when only the last may hold a
      comma. */
  lemma {:induction false} SplitJoined(fields: seq<string>)
    requires fields != [] && OneEach(fields)
    ensures SplitN(Join(fields, ","), |fields|) == fields
  {
    if |fields| > 1 {
      var rest := fields[1..];
      assert forall i | 0 <= i < |rest| - 1 :: rest[i] == fields[i + 1];
      SplitJoined(rest);
      CutFirst(fields[0], ',', Join(rest, ","));
      assert fields == [fields[0]] + rest;
    }
  }

  lemma {:induction false} PadPlain(digits: string, width: nat)
    requires digits != "" && ',' !in digits && ' ' !in digits
    ensures var p := TimingLine.ZeroPad(digits, width); p != "" && ',' !in p && ' ' !in p
    decreases width - |digits|
  {
    if |digits| < width {
      PadPlain("0" + digits, width);
    }
  }

  lemma DigitsPlain(n: nat)
    ensures Itoa(n) != "" && ',' !in Itoa(n) && ' ' !in Itoa(n)
  {
    assert !IsDigit(',') && !IsDigit(' ');
  }

  lemma PaddedPlain(n: int, width: nat)
    requires width > 1
    ensures var p := TimingLine.Padded(n, width); p != "" && ',' !in p && ' ' !in p
  {
    hide Itoa;
    DigitsPlain(if n < 0 then -n else n);
    PadPlain(Itoa(if n < 0 then -n else n), if n < 0 then width - 1 else width);
  }

  lemma ClockPlain(value: int)
    ensures FormatAss(value) != "" && ',' !in FormatAss(value) && ' ' !in FormatAss(value)
  {
    var c := TimingLine.Quotient(TimingLine.Quotient(value, TimingLine.MILLISECOND), 10);
    var h := TimingLine.Quotient(c, 360_000);
    var m, s, r := TimingLine.Remainder(TimingLine.Quotient(c, 6000), 60), TimingLine.Remainder(TimingLine.Quotient(c, 100), 60), TimingLine.Remainder(c, 100);
    DigitsPlain(if h < 0 then -h else h);
    PaddedPlain(m, 2);
    PaddedPlain(s, 2);
    PaddedPlain(r, 2);
    hide Itoa, TimingLine.Padded, TimingLine.Quotient, TimingLine.Remainder;
    assert FormatAss(value) == IntText(h) + ":" + TimingLine.Padded(m, 2) + ":" + TimingLine.Padded(s, 2) + "." + TimingLine.Padded(r, 2);
  }

  /** A time of zero or more is written as its hours, minutes, seconds and
      hundredths. */
  lemma ClockReads(value: nat)
    ensures var c := value / (10 * TimingLine.MILLISECOND);
            exists h, m, s, r: nat :: m < 60 && s < 60 && r < 100 && c == ((h * 60 + m) * 60 + s) * 100 + r
              && FormatAss(value) == Itoa(h) + ":" + TimingLine.Padded(m, 2) + ":" + TimingLine.Padded(s, 2) + "." + TimingLine.Padded(r, 2)
  {
    hide Itoa, TimingLine.Padded;
    var c := value / (10 * TimingLine.MILLISECOND);
    assert (value / TimingLine.MILLISECOND) / 10 == c;
    ClockParts(c);
    var h, m, s, r := c / 360_000, c / 6000 % 60, c / 100 % 60, c % 100;
    assert TimingLine.Remainder(c / 6000, 60) == m && TimingLine.Remainder(c / 100, 60) == s && TimingLine.Remainder(c, 100) == r;
    assert FormatAss(value) == Itoa(h) + ":" + TimingLine.Padded(m, 2) + ":" + TimingLine.Padded(s, 2) + "." + TimingLine.Padded(r, 2);
  }

  lemma ClockParts(c: nat)
    ensures c == ((c / 360_000 * 60 + c / 6000 % 60) * 60 + c / 100 % 60) * 100 + c % 100
  {
    assert c / 100 / 60 == c / 6000 && c / 6000 / 60 == c / 360_000;
  }

  // ---- a retimed line ----------------------------------------------------

  lemma JoinFront(fields: seq<string>)
    requires |fields| > 1 && (fields[0] == "" || fields[0][0] != ' ')
    ensures Join(fields, ",") != "" && Join(fields, ",")[0] != ' '
  {
    assert fields[0] == "" ==> Join(fields, ",")[0] == ',';
  }

  lemma {:induction false} LeadingJoined(front: string, rest: string)
    requires (forall i | 0 <= i < |front| :: front[i] == ' ') && (rest == "" || rest[0] != ' ')
    ensures Leading(front + rest) == |front|
  {
    if front == "" {
      assert front + rest == rest;
    } else {
      assert (front + rest)[1..] == front[1..] + rest;
      LeadingJoined(front[1..], rest);
    }
  }

  /** Retiming a line changes its Start and End fields to the new times and
      nothing else. */
  lemma FieldsRetimed(record: string, format: string, start: int, end: int)
    requires RetimedDialogue(record, format, start, end).Some?
    ensures var out := RetimedDialogue(record, format, start, end).value;
            var s, e := PlaceOf(Names(format), "start"), PlaceOf(Names(format), "end");
            && s.Some? && e.Some? && s != e
            && FieldsOf(record, format).Some?
            && FieldsOf(out, format) == Some(FieldsOf(record, format).value[s.value := FormatAss(start)][e.value := FormatAss(end)])
            && CutAt(out, ':').Some? && CutAt(out, ':').value.0 == CutAt(record, ':').value.0
  {
    hide FormatAss, Names, PlaceOf, SplitN, CutAt, Leading, Join;
    var names, cut := Names(format), CutAt(record, ':').value;
    var s, e := PlaceOf(names, "start").value, PlaceOf(names, "end").value;
    var lead := Leading(cut.1);
    var value := cut.1[lead..];
    var fields := SplitN(value, |names|);
    var after := fields[s := FormatAss(start)][e := FormatAss(end)];
    ClockPlain(start);
    ClockPlain(end);
    assert names[s] != names[e];
    SplitFacts(value, |names|);
    SplitJoined(after);
    FirstField(value, |names|);
    JoinFront(after);
    CutFirst(cut.0, ':', cut.1[..lead] + Join(after, ","));
    LeadingJoined(cut.1[..lead], Join(after, ","));
    assert (cut.1[..lead] + Join(after, ","))[lead..] == Join(after, ",");
  }

  lemma FirstField(value: string, n: nat)
    requires n > 0 && (value == "" || value[0] != ' ')
    ensures SplitN(value, n)[0] == "" || SplitN(value, n)[0][0] != ' '
  {
  }

  lemma {:induction false} TrimLeftFront(p: string, rest: string)
    ensures TrimLeft(p + ":" + rest) == TrimLeft(p) + ":" + rest
  {
    var s := p + ":" + rest;
    if p == "" {
      assert s[0] == ':';
    } else if IsSpace(p[0]) {
      assert s[0] == p[0] && s[1..] == p[1..] + ":" + rest;
      TrimLeftFront(p[1..], rest);
    } else {
      assert s[0] == p[0];
    }
  }

  lemma {:induction false} TrimRightBehind(x: string, rest: string)
    ensures TrimRight(x + ":" + rest) == x + ":" + TrimRight(rest)
  {
    var s := x + ":" + rest;
    if rest == "" {
      assert s[|s| - 1] == ':';
    } else if IsSpace(rest[|rest| - 1]) {
      assert s[|s| - 1] == rest[|rest| - 1] && s[..|s| - 1] == x + ":" + rest[..|rest| - 1];
      TrimRightBehind(x, rest[..|rest| - 1]);
    } else {
      assert s[|s| - 1] == rest[|rest| - 1];
    }
  }

  lemma {:induction false} TrimLeftKeeps(p: string, c: char)
    requires c !in p
    ensures c !in TrimLeft(p) && TrimLeft(TrimLeft(p)) == TrimLeft(p)
  {
    if p != "" && IsSpace(p[0]) {
      TrimLeftKeeps(p[1..], c);
    }
  }

  /** The header of a line is what stands before its first colon. */
  lemma HeaderIsPrefix(prefix: string, rest: string)
    requires ':' !in prefix
    ensures Header(prefix + ":" + rest) == TrimSpace(prefix)
  {
    hide TrimLeft, TrimRight;
    TrimLeftFront(prefix, rest);
    TrimRightBehind(TrimLeft(prefix), rest);
    TrimLeftKeeps(prefix, ':');
    CutFirst(TrimLeft(prefix), ':', TrimRight(rest));
  }

  /** A retimed Dialogue line is a Dialogue line. */
  lemma StillDialogue(record: string, format: string, start: int, end: int)
    requires RowOf(record).Dialogue? && RetimedDialogue(record, format, start, end).Some?
    ensures RowOf(RetimedDialogue(record, format, start, end).value).Dialogue?
  {
    hide Header, CutAt, Names, PlaceOf, SplitN, FormatAss, Leading;
    FieldsRetimed(record, format, start, end);
    var out := RetimedDialogue(record, format, start, end).value;
    var before, after := CutAt(record, ':').value, CutAt(out, ':').value;
    HeaderIsPrefix(before.0, before.1);
    HeaderIsPrefix(after.0, after.1);
  }

  // ---- reading a rewritten file ------------------------------------------

  ghost predicate AllDialogue(lines: seq<string>) {
    forall i | 0 <= i < |lines| :: RowOf(lines[i]).Dialogue?
  }

  lemma OneMoreRow(lines: seq<string>, line: string)
    ensures var rows, more := RowsOf(lines), RowsOf(lines + [line]);
            && more == rows + [RowOf(line)]
            && DialoguesIn(more, |more|) == DialoguesIn(rows, |rows|) + (if RowOf(line).Dialogue? then 1 else 0)
            && Cues(more, |more|) == Cues(rows, |rows|) + (if RowOf(line).Dialogue? then [line] else [])
            && Others(more, |more|) == Others(rows, |rows|) + (if RowOf(line).Dialogue? then [] else [line])
            && FormatAt(more, |more|) == (if RowOf(line).FormatRow? then RowOf(line).format else FormatAt(rows, |rows|))
  {
    hide RowOf;
    var rows, more := RowsOf(lines), RowsOf(lines + [line]);
    assert more == rows + [RowOf(line)];
    SameFormats(rows, more, |rows|);
    SameRows(rows, more, |rows|);
  }

  lemma {:induction false} SameFormats(rows: seq<Row>, more: seq<Row>, n: nat)
    requires rows <= more && n <= |rows|
    ensures FormatAt(more, n) == FormatAt(rows, n)
  {
    if n > 0 {
      SameFormats(rows, more, n - 1);
    }
  }

  lemma {:induction false} SameRows(rows: seq<Row>, more: seq<Row>, n: nat)
    requires rows <= more && n <= |rows|
    ensures DialoguesIn(more, n) == DialoguesIn(rows, n) && Cues(more, n) == Cues(rows, n) && Others(more, n) == Others(rows, n)
  {
    if n > 0 {
      SameRows(rows, more, n - 1);
    }
  }

  /** Every Dialogue row read has a format that a Dialogue row had. */
  ghost predicate SameFormat(read: seq<Row>, rows: seq<Row>, n: nat)
    requires n <= |rows|
  {
    forall i | 0 <= i < |read| && read[i].Dialogue? :: exists j | 0 <= j < n :: rows[j].Dialogue? && FormatAt(rows, j) == FormatAt(read, i)
  }

  /** What was written for the first n rows reads as their other lines and the
      new lines, with the formats of the rows. */
  ghost predicate ReadsFilled(written: seq<string>, rows: seq<Row>, lines: seq<string>, n: nat)
    requires n <= |rows|
  {
    var read, k := RowsOf(written), DialoguesIn(rows, n);
    && Cues(read, |read|) == lines[..if k < |lines| then k else |lines|]
    && Others(read, |read|) == Others(rows, n)
    && FormatAt(read, |read|) == FormatAt(rows, n)
    && SameFormat(read, rows, n)
  }

  lemma {:induction false} FilledReads(rows: seq<Row>, lines: seq<string>, n: nat)
    requires n <= |rows| && AllDialogue(lines) && forall i | 0 <= i < |rows| :: rows[i] == RowOf(rows[i].text)
    ensures ReadsFilled(Filled(rows, lines, n), rows, lines, n)
  {
    hide ReadsFilled, AllDialogue, RowOf, RowsOf, Cues;
    if n == 0 {
      NothingFilled(rows, lines);
    } else {
      FilledReads(rows, lines, n - 1);
      var before, row, k := Filled(rows, lines, n - 1), rows[n - 1], DialoguesIn(rows, n - 1);
      if !row.Dialogue? {
        OtherReads(before, rows, lines, n);
      } else if k < |lines| {
        DialogueAt(lines, k);
        DialogueReads(before, rows, lines, n, k);
      } else {
        GivenUpReads(before, rows, lines, n);
        assert before + [] == before;
      }
    }
  }

  lemma DialogueAt(lines: seq<string>, k: nat)
    requires AllDialogue(lines) && k < |lines|
    ensures RowOf(lines[k]).Dialogue?
  {
  }

  lemma NothingFilled(rows: seq<Row>, lines: seq<string>)
    ensures ReadsFilled([], rows, lines, 0)
  {
  }

  lemma OtherReads(before: seq<string>, rows: seq<Row>, lines: seq<string>, n: nat)
    requires 0 < n <= |rows| && ReadsFilled(before, rows, lines, n - 1) && !rows[n - 1].Dialogue? && rows[n - 1] == RowOf(rows[n - 1].text)
    ensures ReadsFilled(before + [rows[n - 1].text], rows, lines, n)
  {
    hide RowOf, SameFormat, RowsOf;
    OneMoreRow(before, rows[n - 1].text);
    FormatStays(before, rows[n - 1].text, rows, n);
  }

  lemma DialogueReads(before: seq<string>, rows: seq<Row>, lines: seq<string>, n: nat, k: nat)
    requires 0 < n <= |rows| && ReadsFilled(before, rows, lines, n - 1) && rows[n - 1].Dialogue?
    requires k == DialoguesIn(rows, n - 1) && k < |lines| && RowOf(lines[k]).Dialogue?
    ensures ReadsFilled(before + [lines[k]], rows, lines, n)
  {
    hide RowOf, SameFormat, RowsOf, DialoguesIn, FormatAt, Others, Cues;
    PastDialogue(rows, n);
    OneMoreRow(before, lines[k]);
    FormatStays(before, lines[k], rows, n);
    assert lines[..k + 1] == lines[..k] + [lines[k]];
  }

  lemma PastDialogue(rows: seq<Row>, n: nat)
    requires 0 < n <= |rows| && rows[n - 1].Dialogue?
    ensures DialoguesIn(rows, n) == DialoguesIn(rows, n - 1) + 1
    ensures FormatAt(rows, n) == FormatAt(rows, n - 1) && Others(rows, n) == Others(rows, n - 1)
  {
  }

  lemma GivenUpReads(before: seq<string>, rows: seq<Row>, lines: seq<string>, n: nat)
    requires 0 < n <= |rows| && ReadsFilled(before, rows, lines, n - 1) && rows[n - 1].Dialogue? && DialoguesIn(rows, n - 1) >= |lines|
    ensures ReadsFilled(before, rows, lines, n)
  {
    hide RowOf, SameFormat, RowsOf;
    MoreFormats(RowsOf(before), rows, n);
  }

  lemma MoreFormats(read: seq<Row>, rows: seq<Row>, n: nat)
    requires 0 < n <= |rows| && SameFormat(read, rows, n - 1)
    ensures SameFormat(read, rows, n)
  {
    hide FormatAt;
  }

  lemma FormatStays(before: seq<string>, line: string, rows: seq<Row>, n: nat)
    requires 0 < n <= |rows| && SameFormat(RowsOf(before), rows, n - 1)
    requires RowOf(line).Dialogue? ==> rows[n - 1].Dialogue? && FormatAt(RowsOf(before), |before|) == FormatAt(rows, n - 1)
    ensures SameFormat(RowsOf(before + [line]), rows, n)
  {
    hide RowOf, FormatAt;
    var read, more := RowsOf(before), RowsOf(before + [line]);
    assert more == read + [RowOf(line)];
    SameFormats(read, more, |before|);
    MoreFormats(read, rows, n);
    forall i | 0 <= i < |more| && more[i].Dialogue? ensures exists j | 0 <= j < n :: rows[j].Dialogue? && FormatAt(rows, j) == FormatAt(more, i) {
      if i < |before| {
        SameFormats(read, more, i);
        assert read[i].Dialogue?;
      } else {
        assert rows[n - 1].Dialogue?;
      }
    }
  }

  /** Reading a rewritten ASS file: its Dialogue lines are exactly the kept cues
      in stable start order, each its own line, or that line with its Start and
      End fields rewritten; every other line is there, in its order; and the
      cues still have one format. */
  lemma RewrittenReads(lines: seq<string>, cues: seq<Cue>, final: seq<string>)
    requires Repaired(RowsOf(lines), cues, RETIME) == Done(final)
    ensures var rows, read, order := RowsOf(lines), RowsOf(final), KeptInStartOrder(cues);
            && IsStartOrder(cues, order)
            && |Cues(read, |read|)| == |order|
            && (forall i | 0 <= i < |order| :: NewLine(cues, Cues(rows, |rows|), CueFormat(rows, |rows|), RETIME, order[i]) == Some(Cues(read, |read|)[i]))
            && Others(read, |read|) == Others(rows, |rows|)
            && OneFormat(read, |read|)
  {
    hide KeptInStartOrder, IsStartOrder, RetimedDialogue, RowOf, NewLine, OneFormat, SameFormat;
    var rows, order := RowsOf(lines), KeptInStartOrder(cues);
    StartOrderFacts(cues);
    var format := CueFormat(rows, |rows|);
    var written := NewLines(cues, Cues(rows, |rows|), format, RETIME, order, |order|).value;
    OrderFits(cues, order);
    forall i | 0 <= i < |written| ensures RowOf(written[i]).Dialogue? {
      NewLineIsDialogue(rows, cues, format, order[i]);
    }
    FilledReads(rows, written, |rows|);
    assert written[..|order|] == written;
    FormatsAgree(RowsOf(final), rows);
  }

  lemma OrderFits(cues: seq<Cue>, order: seq<nat>)
    requires IsStartOrder(cues, order)
    ensures |order| <= |cues|
  {
  }

  lemma NewLineIsDialogue(rows: seq<Row>, cues: seq<Cue>, format: string, k: nat)
    requires NewLine(cues, Cues(rows, |rows|), format, RETIME, k).Some? && forall i | 0 <= i < |rows| :: rows[i] == RowOf(rows[i].text)
    ensures RowOf(NewLine(cues, Cues(rows, |rows|), format, RETIME, k).value).Dialogue?
  {
    hide RetimedDialogue, RowOf, Cues, DialoguesIn;
    CuesAreDialogue(rows, |rows|, k);
    if cues[k].retime {
      StillDialogue(Cues(rows, |rows|)[k], format, cues[k].start, cues[k].end);
    }
  }

  lemma {:induction false} CuesAreDialogue(rows: seq<Row>, n: nat, k: nat)
    requires n <= |rows| && k < |Cues(rows, n)| && forall i | 0 <= i < |rows| :: rows[i] == RowOf(rows[i].text)
    ensures RowOf(Cues(rows, n)[k]).Dialogue?
  {
    hide RowOf;
    if k < |Cues(rows, n - 1)| {
      CuesAreDialogue(rows, n - 1, k);
    }
  }

  lemma FormatsAgree(read: seq<Row>, rows: seq<Row>)
    requires SameFormat(read, rows, |rows|) && OneFormat(rows, |rows|)
    ensures OneFormat(read, |read|)
  {
    forall i, j | 0 <= i < j < |read| && read[i].Dialogue? && read[j].Dialogue? ensures FormatAt(read, i) == FormatAt(read, j) {
      var x :| 0 <= x < |rows| && rows[x].Dialogue? && FormatAt(rows, x) == FormatAt(read, i);
      var y :| 0 <= y < |rows| && rows[y].Dialogue? && FormatAt(rows, y) == FormatAt(read, j);
      assert x < y || x == y || y < x;
    }
  }
}
