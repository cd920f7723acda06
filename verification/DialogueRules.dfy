/** What counts as a Dialogue line and a format, when a Dialogue line can be
    retimed, and when an ASS or SSA file is refused, from the lines alone
    (internal/subtitleorder/order.go:246-370). */
module DialogueRules {
  import opened Text
  import opened SubtitleRewrite
  import opened DialogueRewrite
  import opened DialogueFields

  // ---- what a line is ----------------------------------------------------

  lemma {:induction false} TrimRightCons(c: char, s: string)
    ensures TrimRight([c] + s) == if TrimRight(s) != "" || !IsSpace(c) then [c] + TrimRight(s) else ""
    decreases |s|
  {
    var all := [c] + s;
    if s == "" {
      assert all == [c] && all[..0] == "";
      assert [c] + "" == [c];
    } else {
      assert all[|all| - 1] == s[|s| - 1] && all[..|all| - 1] == [c] + s[..|s| - 1];
      if IsSpace(s[|s| - 1]) {
        TrimRightCons(c, s[..|s| - 1]);
      }
    }
  }

  lemma {:induction false} TrimsCommute(s: string)
    ensures TrimLeft(TrimRight(s)) == TrimRight(TrimLeft(s))
  {
    if s != "" {
      assert s == [s[0]] + s[1..];
      TrimRightCons(s[0], s[1..]);
      if IsSpace(s[0]) {
        TrimsCommute(s[1..]);
        if TrimRight(s[1..]) != "" {
          assert ([s[0]] + TrimRight(s[1..]))[1..] == TrimRight(s[1..]);
        }
      }
    }
  }

  lemma {:induction false} TrimLeftTwice(s: string)
    ensures TrimLeft(TrimLeft(s)) == TrimLeft(s)
    ensures forall c | c in TrimLeft(s) :: c in s
  {
    if s != "" && IsSpace(s[0]) {
      TrimLeftTwice(s[1..]);
    }
  }

  lemma {:induction false} TrimRightTwice(s: string)
    ensures TrimRight(TrimRight(s)) == TrimRight(s)
    ensures forall c | c in TrimRight(s) :: c in s
  {
    if s != "" && IsSpace(s[|s| - 1]) {
      TrimRightTwice(s[..|s| - 1]);
    }
  }

  lemma TrimmedAgain(s: string)
    ensures TrimSpace(TrimRight(s)) == TrimSpace(s) && TrimSpace(TrimSpace(s)) == TrimSpace(s)
    ensures forall c | c in TrimSpace(s) :: c in s
  {
    hide TrimLeft, TrimRight;
    TrimsCommute(s);
    TrimsCommute(TrimSpace(s));
    TrimLeftTwice(s);
    TrimRightTwice(s);
    TrimRightTwice(TrimLeft(s));
    TrimsCommute(TrimLeft(s));
  }

  /** A line is a format or a cue by what stands before its first colon, spaces
      aside; a format is what stands after it. */
  lemma RowRules(prefix: string, rest: string)
    requires ':' !in prefix
    ensures var line := prefix + ":" + rest;
            RowOf(line) == if TrimSpace(prefix) == "Format" then FormatRow(line, TrimSpace(rest))
                           else if TrimSpace(prefix) == "Dialogue" then Dialogue(line)
                           else OtherRow(line)
  {
    var line := prefix + ":" + rest;
    HeaderIsPrefix(prefix, rest);
    TrimLeftFront(prefix, rest);
    TrimRightBehind(TrimLeft(prefix), rest);
    TrimLeftTwice(prefix);
    CutFirst(TrimLeft(prefix), ':', TrimRight(rest));
    TrimmedAgain(rest);
    hide TrimLeft, TrimRight, CutAt, Header;
  }

  /** A line without a colon is one by all it holds. */
  lemma PlainRowRules(line: string)
    requires ':' !in line
    ensures RowOf(line) == if TrimSpace(line) == "Format" then FormatRow(line, "")
                           else if TrimSpace(line) == "Dialogue" then Dialogue(line)
                           else OtherRow(line)
  {
    TrimmedAgain(line);
    assert CutAt(TrimSpace(line), ':').None?;
    assert TrimSpace("") == "";
    hide CutAt;
  }

  // ---- retiming a line ---------------------------------------------------

  function Commas(s: string): nat { if s == "" then 0 else (if s[0] == ',' then 1 else 0) + Commas(s[1..]) }

  lemma {:induction false} CommasAppend(a: string, b: string)
    ensures Commas(a + b) == Commas(a) + Commas(b)
  {
    if a == "" {
      assert a + b == b;
    } else {
      assert (a + b)[1..] == a[1..] + b;
      CommasAppend(a[1..], b);
    }
  }

  lemma {:induction false} NoCommas(s: string)
    ensures ',' !in s ==> Commas(s) == 0
    ensures Commas(s) <= |s|
  {
    if s != "" {
      assert s == [s[0]] + s[1..];
      NoCommas(s[1..]);
    }
  }

  lemma {:induction false} SplitCount(s: string, n: nat)
    requires n > 0
    ensures |SplitN(s, n)| == if n <= Commas(s) then n else Commas(s) + 1
    decreases n
  {
    var cut := CutAt(s, ',');
    if cut.None? {
      NoCommas(s);
    } else {
      CommasAppend(cut.value.0, "," + cut.value.1);
      NoCommas(cut.value.0);
      assert s == cut.value.0 + ("," + cut.value.1) && ("," + cut.value.1)[1..] == cut.value.1;
      if n > 1 {
        SplitCount(cut.value.1, n - 1);
      }
    }
  }

  lemma {:induction false} NoCut(s: string, c: char)
    requires c !in s
    ensures CutAt(s, c).None?
  {
    if s != "" {
      assert s[0] in s && forall x | x in s[1..] :: x in s;
      NoCut(s[1..], c);
    }
  }

  lemma SplitOne(field: string, n: nat)
    requires n > 0 && ',' !in field
    ensures SplitN(field, n) == [field]
  {
    NoCut(field, ',');
  }

  lemma SplitHead(field: string, rest: string, n: nat)
    requires n > 1 && ',' !in field
    ensures SplitN(field + "," + rest, n) == [field] + SplitN(rest, n - 1)
  {
    CutFirst(field, ',', rest);
    hide CutAt;
  }

  lemma {:induction false} SplitAll(fields: seq<string>, n: nat)
    requires fields != [] && n >= |fields| && forall i | 0 <= i < |fields| :: ',' !in fields[i]
    ensures SplitN(Join(fields, ","), n) == fields
    decreases n
  {
    hide CutAt, SplitN;
    if |fields| == 1 {
      SplitOne(fields[0], n);
      assert fields == [fields[0]];
    } else {
      var rest := fields[1..];
      assert forall i | 0 <= i < |rest| :: rest[i] == fields[i + 1];
      SplitAll(rest, n - 1);
      SplitHead(fields[0], Join(rest, ","), n);
      assert fields == [fields[0]] + rest;
    }
  }

  lemma {:induction false} JoinLong(fields: seq<string>)
    requires fields != [] && forall i | 0 <= i < |fields| :: ',' !in fields[i]
    ensures Commas(Join(fields, ",")) == |fields| - 1 < |Join(fields, ",")| + 1
  {
    NoCommas(fields[0]);
    if |fields| > 1 {
      JoinLong(fields[1..]);
      CommasAppend(fields[0], "," + Join(fields[1..], ","));
      assert ("," + Join(fields[1..], ","))[1..] == Join(fields[1..], ",");
      assert Join(fields, ",") == fields[0] + ("," + Join(fields[1..], ","));
    }
  }

  /** A format: its fields between commas. */
  ghost predicate IsFormat(format: string, fields: seq<string>) {
    fields != [] && format == Join(fields, ",") && forall i | 0 <= i < |fields| :: ',' !in fields[i]
  }

  /** The last field of that name, spaces and upper case aside. */
  ghost predicate LastNamed(fields: seq<string>, p: nat, name: string) {
    p < |fields| && Lower(TrimSpace(fields[p])) == name && forall q | p < q < |fields| :: Lower(TrimSpace(fields[q])) != name
  }

  lemma NamesOf(format: string, fields: seq<string>)
    requires IsFormat(format, fields)
    ensures |Names(format)| == |fields| && forall i | 0 <= i < |fields| :: Names(format)[i] == Lower(TrimSpace(fields[i]))
  {
    JoinLong(fields);
    SplitAll(fields, |format| + 1);
    hide TrimLeft, TrimRight, LowerChar;
  }

  lemma {:induction false} PlaceIsLast(names: seq<string>, name: string)
    ensures match PlaceOf(names, name)
            case Some(p) => p < |names| && names[p] == name && forall q | p < q < |names| :: names[q] != name
            case None => name !in names
  {
    if names != [] {
      PlaceIsLast(names[..|names| - 1], name);
      assert names == names[..|names| - 1] + [names[|names| - 1]];
    }
  }

  lemma {:induction false} LeadingCommas(s: string)
    ensures Commas(s[Leading(s)..]) == Commas(s)
  {
    if s != "" && s[0] == ' ' {
      LeadingCommas(s[1..]);
      assert s[Leading(s)..] == s[1..][Leading(s[1..])..];
    }
  }

  /** A line can be retimed exactly when it has a colon, its format has a Start
      and an End field, and it has as many fields as the format. */
  lemma RetimedExactly(record: string, format: string, fields: seq<string>, start: int, end: int)
    requires IsFormat(format, fields)
    ensures RetimedDialogue(record, format, start, end).Some? <==>
              && (exists p: nat :: LastNamed(fields, p, "start")) && (exists p: nat :: LastNamed(fields, p, "end"))
              && exists prefix, rest :: record == prefix + ":" + rest && ':' !in prefix && Commas(rest) >= |fields| - 1
  {
    hide IsFormat;
    var names, cut := Names(format), CutAt(record, ':');
    NamesOf(format, fields);
    NamedLast(fields, names, "start");
    NamedLast(fields, names, "end");
    hide LastNamed, PlaceOf, Names, FormatAss, SplitN;
    if cut.Some? {
      var value := cut.value.1[Leading(cut.value.1)..];
      SplitCount(value, |names|);
      LeadingCommas(cut.value.1);
      assert record == cut.value.0 + ":" + cut.value.1;
    }
    forall prefix, rest | record == prefix + ":" + rest && ':' !in prefix ensures cut == Some((prefix, rest)) {
      CutFirst(prefix, ':', rest);
    }
  }

  lemma NamedLast(fields: seq<string>, names: seq<string>, name: string)
    requires |names| == |fields| && forall i | 0 <= i < |fields| :: names[i] == Lower(TrimSpace(fields[i]))
    ensures PlaceOf(names, name).Some? <==> exists p: nat :: LastNamed(fields, p, name)
    ensures forall p: nat | LastNamed(fields, p, name) :: PlaceOf(names, name) == Some(p)
  {
    hide TrimSpace, Lower;
    PlaceIsLast(names, name);
    if PlaceOf(names, name).Some? {
      assert LastNamed(fields, PlaceOf(names, name).value, name);
    }
    forall p: nat | LastNamed(fields, p, name) ensures PlaceOf(names, name) == Some(p) {
      assert names[p] == name && names[p] in names;
    }
  }

  /** Retiming writes the two times over the last Start and the last End field
      and leaves all else. */
  lemma DialogueIsRetimed(prefix: string, spaces: string, values: seq<string>, format: string, fields: seq<string>, s: nat, e: nat, start: int, end: int)
    requires ':' !in prefix && IsFormat(format, fields) && LastNamed(fields, s, "start") && LastNamed(fields, e, "end")
    requires (forall i | 0 <= i < |spaces| :: spaces[i] == ' ') && |values| == |fields| && (values[0] == "" || values[0][0] != ' ')
    requires forall i | 0 <= i < |values| - 1 :: ',' !in values[i]
    ensures RetimedDialogue(prefix + ":" + (spaces + Join(values, ",")), format, start, end) ==
            Some(prefix + ":" + (spaces + Join(values[s := FormatAss(start)][e := FormatAss(end)], ",")))
  {
    var names := Names(format);
    NamesOf(format, fields);
    NamedLast(fields, names, "start");
    NamedLast(fields, names, "end");
    assert s != e;
    hide LastNamed, PlaceOf, Names, FormatAss, IsFormat, TrimSpace, Lower;
    var rest := spaces + Join(values, ",");
    CutFirst(prefix, ':', rest);
    JoinFront(values);
    LeadingJoined(spaces, Join(values, ","));
    SplitJoined(values);
    assert rest[|spaces|..] == Join(values, ",") && rest[..|spaces|] == spaces;
    hide CutAt, SplitN, Join, Leading;
  }

  // ---- a whole file ------------------------------------------------------

  /** The format of a row is that of the last format row before it, or empty. */
  ghost predicate InForce(rows: seq<Row>, p: nat, format: string) {
    && p <= |rows|
    && (|| (format == "" && forall q | 0 <= q < p :: !rows[q].FormatRow?)
        || exists q | 0 <= q < p :: rows[q].FormatRow? && rows[q].format == format && forall r | q < r < p :: !rows[r].FormatRow?)
  }

  lemma {:induction false} FormatInForce(rows: seq<Row>, p: nat, format: string)
    requires p <= |rows|
    ensures InForce(rows, p, format) <==> FormatAt(rows, p) == format
  {
    if p > 0 {
      FormatInForce(rows, p - 1, format);
    }
  }

  /** Where the Dialogue lines among the first n are. */
  ghost predicate AreDialogues(rows: seq<Row>, n: nat, at: seq<nat>) {
    (forall i, j | 0 <= i < j < |at| :: at[i] < at[j]) && forall p: nat :: p in at <==> p < n && p < |rows| && rows[p].Dialogue?
  }

  lemma SomePlace(at: seq<nat>)
    ensures at == [] || exists p: nat :: p in at
  {
    if at != [] {
      assert at[0] in at;
    }
  }

  /** A rising list ends with its largest member. */
  lemma LastPlace(at: seq<nat>, top: nat)
    requires (forall i, j | 0 <= i < j < |at| :: at[i] < at[j]) && top in at && forall p: nat | p in at :: p <= top
    ensures at != [] && at[|at| - 1] == top && forall p: nat :: p in at[..|at| - 1] <==> p in at && p < top
  {
    var last := |at| - 1;
    assert at[last] in at;
    var i :| 0 <= i < |at| && at[i] == top;
    assert forall j | 0 <= j < last :: at[..last][j] == at[j] < at[last];
    forall p: nat | p in at && p < top ensures p in at[..last] {
      var j :| 0 <= j < |at| && at[j] == p;
      assert at[..last][j] == p;
    }
  }

  lemma {:induction false} DialogueLines(rows: seq<Row>, n: nat, at: seq<nat>)
    requires n <= |rows| && AreDialogues(rows, n, at)
    ensures |at| == |Cues(rows, n)| && forall k | 0 <= k < |at| :: at[k] < n && Cues(rows, n)[k] == rows[at[k]].text
  {
    hide AreDialogues;
    if n == 0 {
      NoDialogues(rows, at);
    } else if rows[n - 1].Dialogue? {
      LastDialogue(rows, n, at);
      var before := at[..|at| - 1];
      assert at == before + [n - 1];
      DialogueLines(rows, n - 1, before);
    } else {
      SameDialogues(rows, n, at);
      DialogueLines(rows, n - 1, at);
    }
  }

  lemma NoDialogues(rows: seq<Row>, at: seq<nat>)
    requires AreDialogues(rows, 0, at)
    ensures at == []
  {
    SomePlace(at);
  }

  lemma LastDialogue(rows: seq<Row>, n: nat, at: seq<nat>)
    requires 0 < n <= |rows| && rows[n - 1].Dialogue? && AreDialogues(rows, n, at)
    ensures at != [] && at[|at| - 1] == n - 1 && AreDialogues(rows, n - 1, at[..|at| - 1])
  {
    LastPlace(at, n - 1);
  }

  lemma SameDialogues(rows: seq<Row>, n: nat, at: seq<nat>)
    requires 0 < n <= |rows| && !rows[n - 1].Dialogue? && AreDialogues(rows, n, at)
    ensures AreDialogues(rows, n - 1, at)
  {
  }

  /** A file is refused if its Dialogue lines and the cues do not match one to
      one, if two of the lines have different formats, or if a kept line cannot
      be retimed as asked. */
  ghost predicate Refuses(rows: seq<Row>, at: seq<nat>, cues: seq<Cue>, retime: Retiming) {
    || |at| != |cues|
    || (exists i, j, f, g | 0 <= i < j < |at| :: InForce(rows, at[i], f) && InForce(rows, at[j], g) && f != g)
    || exists k, f | 0 <= k < |at| && k < |cues| ::
         InForce(rows, at[k], f) && at[k] < |rows| && cues[k].retime && !cues[k].drop && retime(rows[at[k]].text, f, cues[k].start, cues[k].end) == None
  }

  /** Line k of a rewritten file's cues, in start order. */
  ghost predicate WritesLine(rows: seq<Row>, at: seq<nat>, cues: seq<Cue>, retime: Retiming, k: nat, line: string) {
    && k < |at| && k < |cues| && at[k] < |rows|
    && if cues[k].retime then exists f :: InForce(rows, at[k], f) && retime(rows[at[k]].text, f, cues[k].start, cues[k].end) == Some(line)
       else line == rows[at[k]].text
  }

  lemma InOrderBack(at: seq<nat>, i: nat, j: nat)
    requires i < |at| && j < |at| && at[i] < at[j] && forall a, b | 0 <= a < b < |at| :: at[a] < at[b]
    ensures i < j
  {
    if j < i {
      assert false;
    }
  }

  lemma OneFormatInForce(rows: seq<Row>, at: seq<nat>)
    requires AreDialogues(rows, |rows|, at)
    ensures !OneFormat(rows, |rows|) <==> exists i, j, f, g | 0 <= i < j < |at| :: InForce(rows, at[i], f) && InForce(rows, at[j], g) && f != g
  {
    hide InForce, FormatAt;
    forall p: nat, f | p <= |rows| ensures InForce(rows, p, f) <==> FormatAt(rows, p) == f {
      FormatInForce(rows, p, f);
    }
    forall k | 0 <= k < |at| ensures at[k] < |rows| && rows[at[k]].Dialogue? {
      assert at[k] in at;
    }
    if !OneFormat(rows, |rows|) {
      var p, q :| 0 <= p < q < |rows| && rows[p].Dialogue? && rows[q].Dialogue? && FormatAt(rows, p) != FormatAt(rows, q);
      assert p in at && q in at;
      var i :| 0 <= i < |at| && at[i] == p;
      var j :| 0 <= j < |at| && at[j] == q;
      InOrderBack(at, i, j);
      assert InForce(rows, at[i], FormatAt(rows, p)) && InForce(rows, at[j], FormatAt(rows, q));
    }
  }

  lemma {:induction false} CueFormatInForce(rows: seq<Row>, n: nat)
    requires n <= |rows| && OneFormat(rows, |rows|)
    ensures forall p | 0 <= p < n && rows[p].Dialogue? :: CueFormat(rows, n) == FormatAt(rows, p)
  {
    hide FormatAt;
    if n > 0 {
      CueFormatInForce(rows, n - 1);
    }
  }

  lemma {:induction false} LinesWritten(cues: seq<Cue>, lines: seq<string>, format: string, retime: Retiming, order: seq<nat>, n: nat)
    requires n <= |order|
    ensures NewLines(cues, lines, format, retime, order, n).None? <==> exists i | 0 <= i < n :: NewLine(cues, lines, format, retime, order[i]).None?
  {
    hide NewLine;
    if n > 0 {
      LinesWritten(cues, lines, format, retime, order, n - 1);
    }
  }

  /** When an ASS or SSA file is refused. */
  lemma RefusedExactly(rows: seq<Row>, at: seq<nat>, cues: seq<Cue>, retime: Retiming)
    requires AreDialogues(rows, |rows|, at)
    ensures Repaired(rows, cues, retime) == Refused <==> Refuses(rows, at, cues, retime)
  {
    var lines, order := Cues(rows, |rows|), KeptInStartOrder(cues);
    DialogueLines(rows, |rows|, at);
    OneFormatInForce(rows, at);
    StartOrderFacts(cues);
    hide KeptInStartOrder, OneFormat, InForce, FormatAt, Cues, CueFormat, Filled, NewLines;
    if |at| == |cues| && OneFormat(rows, |rows|) {
      LinesWritten(cues, lines, CueFormat(rows, |rows|), retime, order, |order|);
      forall k | 0 <= k < |at| ensures LineRule(rows, at, cues, retime, k) {
        OneLine(rows, at, cues, retime, k);
      }
      KeptLines(rows, at, cues, retime, order);
    }
  }

  ghost predicate LineRule(rows: seq<Row>, at: seq<nat>, cues: seq<Cue>, retime: Retiming, k: nat) {
    k < |cues| && k < |at| && at[k] < |rows| &&
    forall f | InForce(rows, at[k], f) ::
      NewLine(cues, Cues(rows, |rows|), CueFormat(rows, |rows|), retime, k) ==
      if cues[k].retime then retime(rows[at[k]].text, f, cues[k].start, cues[k].end) else Some(rows[at[k]].text)
  }

  lemma OneLine(rows: seq<Row>, at: seq<nat>, cues: seq<Cue>, retime: Retiming, k: nat)
    requires AreDialogues(rows, |rows|, at) && OneFormat(rows, |rows|) && |at| == |cues| && k < |at|
    ensures LineRule(rows, at, cues, retime, k)
    ensures exists f :: InForce(rows, at[k], f)
  {
    DialogueLines(rows, |rows|, at);
    CueFormatInForce(rows, |rows|);
    assert at[k] in at;
    FormatInForce(rows, at[k], FormatAt(rows, at[k]));
    hide InForce, Cues, OneFormat, CueFormat;
    forall f | InForce(rows, at[k], f) ensures f == FormatAt(rows, at[k]) {
      FormatInForce(rows, at[k], f);
    }
  }

  lemma KeptLines(rows: seq<Row>, at: seq<nat>, cues: seq<Cue>, retime: Retiming, order: seq<nat>)
    requires IsStartOrder(cues, order) && |at| == |cues| && AreDialogues(rows, |rows|, at) && OneFormat(rows, |rows|)
    requires forall k | 0 <= k < |at| :: LineRule(rows, at, cues, retime, k)
    ensures (exists i | 0 <= i < |order| :: NewLine(cues, Cues(rows, |rows|), CueFormat(rows, |rows|), retime, order[i]).None?) <==>
            exists k, f | 0 <= k < |at| && k < |cues| ::
              InForce(rows, at[k], f) && at[k] < |rows| && cues[k].retime && !cues[k].drop && retime(rows[at[k]].text, f, cues[k].start, cues[k].end) == None
  {
    hide InForce, Cues, CueFormat, NewLine, OneFormat, AreDialogues;
    var lines, format := Cues(rows, |rows|), CueFormat(rows, |rows|);
    if exists i | 0 <= i < |order| :: NewLine(cues, lines, format, retime, order[i]).None? {
      var i :| 0 <= i < |order| && NewLine(cues, lines, format, retime, order[i]).None?;
      var k := order[i];
      assert k in order;
      OneLine(rows, at, cues, retime, k);
      var f :| InForce(rows, at[k], f);
      assert LineRule(rows, at, cues, retime, k);
    }
    forall k, f | 0 <= k < |at| && InForce(rows, at[k], f) && at[k] < |rows| && cues[k].retime && !cues[k].drop
                  && retime(rows[at[k]].text, f, cues[k].start, cues[k].end) == None
      ensures exists i | 0 <= i < |order| :: NewLine(cues, lines, format, retime, order[i]).None?
    {
      assert LineRule(rows, at, cues, retime, k);
      assert k in order;
      var i :| 0 <= i < |order| && order[i] == k;
    }
  }

  /** What is written otherwise: every line that is no Dialogue line, in order,
      and between them the Dialogue lines of the kept cues, in start order, each
      retimed by the format in force there, if asked, or as it was. */
  lemma WrittenExactly(rows: seq<Row>, at: seq<nat>, cues: seq<Cue>, retime: Retiming) returns (marked: seq<(string, bool)>, order: seq<nat>)
    requires AreDialogues(rows, |rows|, at) && !Refuses(rows, at, cues, retime)
    ensures Repaired(rows, cues, retime) == Done(Texts(marked))
    ensures Only(marked, false) == Others(rows, |rows|)
    ensures IsStartOrder(cues, order) && |Only(marked, true)| == |order|
    ensures forall i | 0 <= i < |order| :: WritesLine(rows, at, cues, retime, order[i], Only(marked, true)[i])
  {
    RefusedExactly(rows, at, cues, retime);
    OneFormatInForce(rows, at);
    order := KeptInStartOrder(cues);
    StartOrderFacts(cues);
    marked := OthersStay(rows, cues, retime);
    hide *;
    forall i | 0 <= i < |order| ensures WritesLine(rows, at, cues, retime, order[i], Only(marked, true)[i]) {
      LineIsWritten(rows, at, cues, retime, order, i, Only(marked, true)[i]);
    }
  }

  lemma LineIsWritten(rows: seq<Row>, at: seq<nat>, cues: seq<Cue>, retime: Retiming, order: seq<nat>, i: nat, line: string)
    requires AreDialogues(rows, |rows|, at) && OneFormat(rows, |rows|) && |at| == |cues| && IsStartOrder(cues, order) && i < |order|
    requires NewLine(cues, Cues(rows, |rows|), CueFormat(rows, |rows|), retime, order[i]) == Some(line)
    ensures WritesLine(rows, at, cues, retime, order[i], line)
  {
    hide InForce, Cues, CueFormat, NewLine, OneFormat, AreDialogues;
    var k := order[i];
    assert k in order;
    OneLine(rows, at, cues, retime, k);
    var f :| InForce(rows, at[k], f);
    assert LineRule(rows, at, cues, retime, k);
  }
}
