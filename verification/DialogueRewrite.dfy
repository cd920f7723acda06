/** Rewriting an ASS or SSA subtitle: the Dialogue lines are dropped, retimed and
    put in start order, and every other line stays where it is
    (internal/subtitleorder/order.go:246-311). What a line is and how it is
    retimed are left to DialogueFields. */
module DialogueRewrite {
  import opened Text
  import opened SubtitleRewrite

  /** A line by what it is: a cue, the format of the cues after it, or anything
      else. */
  datatype Row = Dialogue(text: string) | FormatRow(text: string, format: string) | OtherRow(text: string)

  /** The line, the format in force, and the new times. */
  type Retiming = (string, string, int, int) -> Option<string>

  function DialoguesIn(rows: seq<Row>, n: nat): nat
    requires n <= |rows|
  {
    if n == 0 then 0 else DialoguesIn(rows, n - 1) + if rows[n - 1].Dialogue? then 1 else 0
  }

  /** The format in force after n lines. */
  function FormatAt(rows: seq<Row>, n: nat): string
    requires n <= |rows|
  {
    if n == 0 then "" else if rows[n - 1].FormatRow? then rows[n - 1].format else FormatAt(rows, n - 1)
  }

  /** The lines of the Dialogue rows among the first n. */
  function Cues(rows: seq<Row>, n: nat): (r: seq<string>)
    requires n <= |rows|
    ensures |r| == DialoguesIn(rows, n)
  {
    if n == 0 then [] else Cues(rows, n - 1) + if rows[n - 1].Dialogue? then [rows[n - 1].text] else []
  }

  /** All Dialogue rows have one format. */
  ghost predicate OneFormat(rows: seq<Row>, n: nat)
    requires n <= |rows|
  {
    forall i, j | 0 <= i < j < n && rows[i].Dialogue? && rows[j].Dialogue? :: FormatAt(rows, i) == FormatAt(rows, j)
  }

  /** The format of the first Dialogue row, if there is one. */
  function CueFormat(rows: seq<Row>, n: nat): string
    requires n <= |rows|
  {
    if n == 0 then "" else if rows[n - 1].Dialogue? then FormatAt(rows, n - 1) else CueFormat(rows, n - 1)
  }

  /** What becomes of cue k's line. */
  function NewLine(cues: seq<Cue>, lines: seq<string>, format: string, retime: Retiming, k: nat): Option<string> {
    if k >= |cues| || k >= |lines| then None
    else if cues[k].retime then retime(lines[k], format, cues[k].start, cues[k].end)
    else Some(lines[k])
  }

  /** The new lines for the first n positions; None when a line cannot be
      retimed. */
  function NewLines(cues: seq<Cue>, lines: seq<string>, format: string, retime: Retiming, order: seq<nat>, n: nat): (r: Option<seq<string>>)
    requires n <= |order|
    ensures r.Some? ==> |r.value| == n && forall i | 0 <= i < n :: NewLine(cues, lines, format, retime, order[i]) == Some(r.value[i])
  {
    if n == 0 then Some([])
    else
      var before, line := NewLines(cues, lines, format, retime, order, n - 1), NewLine(cues, lines, format, retime, order[n - 1]);
      if before.None? || line.None? then None else Some(before.value + [line.value])
  }

  /** The first n rows with the new lines in the places of the Dialogue rows;
      the last places are given up when there are fewer lines. */
  function Filled(rows: seq<Row>, lines: seq<string>, n: nat): seq<string>
    requires n <= |rows|
  {
    if n == 0 then []
    else
      var k := DialoguesIn(rows, n - 1);
      Filled(rows, lines, n - 1) +
      if !rows[n - 1].Dialogue? then [rows[n - 1].text] else if k < |lines| then [lines[k]] else []
  }

  datatype Result = Refused | Done(lines: seq<string>)

  ghost function Repaired(rows: seq<Row>, cues: seq<Cue>, retime: Retiming): Result {
    var lines := Cues(rows, |rows|);
    var order := KeptInStartOrder(cues);
    var written := NewLines(cues, lines, CueFormat(rows, |rows|), retime, order, |order|);
    if |lines| != |cues| || !OneFormat(rows, |rows|) || written.None? then Refused else Done(Filled(rows, written.value, |rows|))
  }

  /** Where the Dialogue rows among the first n are. */
  function Positions(rows: seq<Row>, n: nat): (r: seq<nat>)
    requires n <= |rows|
    ensures |r| == DialoguesIn(rows, n)
  {
    if n == 0 then [] else Positions(rows, n - 1) + if rows[n - 1].Dialogue? then [n - 1] else []
  }

  method RepairDialogue(rows: seq<Row>, cues: seq<Cue>, retime: Retiming) returns (r: Result)
    ensures r == Repaired(rows, cues, retime)
  {
    hide KeptInStartOrder, NewLines, NewLine, Filled;
    var ok, entries, positions, cueFormat := CollectDialogue(rows, cues);
    if !ok {
      return Refused;
    }
    var order := KeptInStartOrder(cues);
    StartOrderFacts(cues);
    r := PlaceDialogue(rows, cues, retime, entries, positions, cueFormat, order);
  }

  /** Finds the Dialogue lines; refuses a second format and more or fewer lines
      than cues. */
  method CollectDialogue(rows: seq<Row>, cues: seq<Cue>) returns (ok: bool, entries: seq<string>, positions: seq<nat>, cueFormat: string)
    ensures ok <==> DialoguesIn(rows, |rows|) == |cues| && OneFormat(rows, |rows|)
    ensures ok ==> entries == Cues(rows, |rows|) && positions == Positions(rows, |rows|) && cueFormat == CueFormat(rows, |rows|)
  {
    entries, positions, cueFormat := [], [], "";
    var eventFormat := "";
    for index := 0 to |rows|
      invariant entries == Cues(rows, index) && positions == Positions(rows, index)
      invariant eventFormat == FormatAt(rows, index) && cueFormat == CueFormat(rows, index)
      invariant OneFormat(rows, index) && DialoguesIn(rows, index) <= |cues|
      invariant forall i | 0 <= i < index && rows[i].Dialogue? :: FormatAt(rows, i) == cueFormat
      invariant DialoguesIn(rows, index) > 0 ==> exists i :: 0 <= i < index && rows[i].Dialogue?
    {
      var row := rows[index];
      if row.FormatRow? {
        eventFormat := row.format;
      }
      if !row.Dialogue? {
        continue;
      }
      if |entries| > 0 && eventFormat != cueFormat {
        ghost var i :| 0 <= i < index && rows[i].Dialogue?;
        assert FormatAt(rows, i) != FormatAt(rows, index);
        return false, entries, positions, cueFormat;
      }
      cueFormat := eventFormat;
      if |entries| >= |cues| {
        MoreToCome(rows, index + 1);
        return false, entries, positions, cueFormat;
      }
      NoneBefore(rows, index);
      entries := entries + [row.text];
      positions := positions + [index];
    }
    ok := |entries| == |cues|;
  }

  lemma {:induction false} MoreToCome(rows: seq<Row>, n: nat)
    requires n <= |rows|
    ensures DialoguesIn(rows, n) <= DialoguesIn(rows, |rows|)
    decreases |rows| - n
  {
    if n < |rows| {
      MoreToCome(rows, n + 1);
    }
  }

  lemma {:induction false} NoneBefore(rows: seq<Row>, n: nat)
    requires n <= |rows|
    ensures DialoguesIn(rows, n) == 0 ==> forall i | 0 <= i < n :: !rows[i].Dialogue?
  {
    if n > 0 {
      NoneBefore(rows, n - 1);
    }
  }

  /** After i Dialogue places: those have their new lines or are given up, and
      nothing else has changed. */
  predicate RightAt(rows: seq<Row>, records: seq<string>, removed: set<nat>, written: seq<string>, i: nat, p: nat)
    requires p < |rows| == |records|
  {
    var k := DialoguesIn(rows, p);
    if rows[p].Dialogue? && k < i then
      if k < |written| then p !in removed && records[p] == written[k] else p in removed
    else p !in removed && records[p] == rows[p].text
  }

  ghost predicate Placed(rows: seq<Row>, records: seq<string>, removed: set<nat>, written: seq<string>, i: nat) {
    |records| == |rows| && forall p: nat | p < |rows| :: RightAt(rows, records, removed, written, i, p)
  }

  method PlaceDialogue(rows: seq<Row>, cues: seq<Cue>, retime: Retiming, entries: seq<string>, positions: seq<nat>, cueFormat: string, order: seq<nat>)
    returns (r: Result)
    requires entries == Cues(rows, |rows|) && positions == Positions(rows, |rows|) && |entries| == |cues|
    requires |order| <= |cues| && forall k | k in order :: k < |cues|
    ensures var written := NewLines(cues, entries, cueFormat, retime, order, |order|);
            r == if written.None? then Refused else Done(Filled(rows, written.value, |rows|))
  {
    hide Placed, Filled, NewLine;
    var records := seq(|rows|, i requires 0 <= i < |rows| => rows[i].text);
    var removed: set<nat> := {};
    var written: seq<string> := [];
    NothingPlaced(rows);
    for i := 0 to |positions|
      invariant NewLines(cues, entries, cueFormat, retime, order, if i < |order| then i else |order|) == Some(written)
      invariant Placed(rows, records, removed, written, i)
    {
      if i >= |order| {
        GiveUp(rows, records, removed, written, i);
        removed := removed + {positions[i]};
        continue;
      }
      assert order[i] in order;
      var record := entries[order[i]];
      ghost var line := NewLine(cues, entries, cueFormat, retime, order[i]);
      LineOf(cues, entries, cueFormat, retime, order[i]);
      if cues[order[i]].retime {
        var retimed := retime(record, cueFormat, cues[order[i]].start, cues[order[i]].end);
        if retimed.None? {
          LinesFail(cues, entries, cueFormat, retime, order, i + 1);
          return Refused;
        }
        record := retimed.value;
      }
      PutAt(rows, records, removed, written, i, record);
      records := records[positions[i] := record];
      written := written + [record];
    }
    var remaining := WithoutRemoved(rows, records, removed, written);
    r := Done(remaining);
  }

  lemma LineOf(cues: seq<Cue>, lines: seq<string>, format: string, retime: Retiming, k: nat)
    requires k < |cues| && k < |lines|
    ensures NewLine(cues, lines, format, retime, k) ==
            if cues[k].retime then retime(lines[k], format, cues[k].start, cues[k].end) else Some(lines[k])
  {
  }

  lemma NothingPlaced(rows: seq<Row>)
    ensures Placed(rows, seq(|rows|, i requires 0 <= i < |rows| => rows[i].text), {}, [], 0)
  {
  }

  lemma GiveUp(rows: seq<Row>, records: seq<string>, removed: set<nat>, written: seq<string>, i: nat)
    requires Placed(rows, records, removed, written, i) && |written| <= i < DialoguesIn(rows, |rows|)
    ensures Placed(rows, records, removed + {Positions(rows, |rows|)[i]}, written, i + 1)
  {
    var at := Positions(rows, |rows|)[i];
    PositionAt(rows, |rows|, i);
    var gone, next := removed + {at}, i + 1;
    forall p: nat | p < |rows| ensures RightAt(rows, records, gone, written, next, p) {
      assert RightAt(rows, records, removed, written, i, p);
      if rows[p].Dialogue? {
        PlaceIn(rows, p, |rows|);
      }
    }
  }

  lemma PutAt(rows: seq<Row>, records: seq<string>, removed: set<nat>, written: seq<string>, i: nat, record: string)
    requires Placed(rows, records, removed, written, i) && |written| == i < DialoguesIn(rows, |rows|)
    ensures Positions(rows, |rows|)[i] < |records|
    ensures Placed(rows, records[Positions(rows, |rows|)[i] := record], removed, written + [record], i + 1)
  {
    var at := Positions(rows, |rows|)[i];
    PositionAt(rows, |rows|, i);
    var after, more, next := records[at := record], written + [record], i + 1;
    forall p: nat | p < |rows| ensures RightAt(rows, after, removed, more, next, p) {
      assert RightAt(rows, records, removed, written, i, p);
      if rows[p].Dialogue? {
        PlaceIn(rows, p, |rows|);
      }
    }
  }

  method WithoutRemoved(rows: seq<Row>, records: seq<string>, removed: set<nat>, written: seq<string>) returns (remaining: seq<string>)
    requires Placed(rows, records, removed, written, DialoguesIn(rows, |rows|))
    ensures remaining == Filled(rows, written, |rows|)
  {
    remaining := [];
    for index := 0 to |records|
      invariant remaining == Filled(rows, written, index)
    {
      assert RightAt(rows, records, removed, written, DialoguesIn(rows, |rows|), index);
      if rows[index].Dialogue? {
        PlaceIn(rows, index, |rows|);
      }
      if index in removed {
        continue;
      }
      remaining := remaining + [records[index]];
    }
  }

  lemma {:induction false} LinesFail(cues: seq<Cue>, lines: seq<string>, format: string, retime: Retiming, order: seq<nat>, n: nat)
    requires n <= |order| && NewLines(cues, lines, format, retime, order, n).None?
    ensures NewLines(cues, lines, format, retime, order, |order|).None?
    decreases |order| - n
  {
    if n < |order| {
      LinesFail(cues, lines, format, retime, order, n + 1);
    }
  }

  lemma {:induction false} PositionAt(rows: seq<Row>, n: nat, i: nat)
    requires n <= |rows| && i < DialoguesIn(rows, n)
    ensures var p := Positions(rows, n)[i]; p < n && rows[p].Dialogue? && DialoguesIn(rows, p) == i
  {
    if i < DialoguesIn(rows, n - 1) {
      PositionAt(rows, n - 1, i);
    }
  }

  /** Every Dialogue row is in its position. */
  lemma {:induction false} PlaceIn(rows: seq<Row>, p: nat, n: nat)
    requires p < n <= |rows| && rows[p].Dialogue?
    ensures DialoguesIn(rows, p) < DialoguesIn(rows, n) && Positions(rows, n)[DialoguesIn(rows, p)] == p
  {
    if p < n - 1 {
      PlaceIn(rows, p, n - 1);
    }
  }

  // ---- what it comes to --------------------------------------------------

  function Others(rows: seq<Row>, n: nat): seq<string>
    requires n <= |rows|
  {
    if n == 0 then [] else Others(rows, n - 1) + if rows[n - 1].Dialogue? then [] else [rows[n - 1].text]
  }

  /** The output with each line marked by whether it is a cue's. */
  function Marked(rows: seq<Row>, lines: seq<string>, n: nat): seq<(string, bool)>
    requires n <= |rows|
  {
    if n == 0 then []
    else
      var k := DialoguesIn(rows, n - 1);
      Marked(rows, lines, n - 1) +
      if !rows[n - 1].Dialogue? then [(rows[n - 1].text, false)] else if k < |lines| then [(lines[k], true)] else []
  }

  function Texts(marked: seq<(string, bool)>): seq<string> {
    if marked == [] then [] else Texts(marked[..|marked| - 1]) + [marked[|marked| - 1].0]
  }

  function Only(marked: seq<(string, bool)>, cue: bool): seq<string> {
    if marked == [] then []
    else Only(marked[..|marked| - 1], cue) + if marked[|marked| - 1].1 == cue then [marked[|marked| - 1].0] else []
  }

  lemma MarkedAppend(marked: seq<(string, bool)>, x: (string, bool))
    ensures Texts(marked + [x]) == Texts(marked) + [x.0]
    ensures forall cue: bool :: Only(marked + [x], cue) == Only(marked, cue) + if x.1 == cue then [x.0] else []
  {
    assert (marked + [x])[..|marked|] == marked;
  }

  /** The output is the other lines, all of them in their order, and among them
      the new lines, all of them in theirs. */
  lemma {:induction false} FilledInterleaves(rows: seq<Row>, lines: seq<string>, n: nat)
    requires n <= |rows|
    ensures var marked := Marked(rows, lines, n);
            && Texts(marked) == Filled(rows, lines, n)
            && Only(marked, false) == Others(rows, n)
            && Only(marked, true) == lines[..if DialoguesIn(rows, n) < |lines| then DialoguesIn(rows, n) else |lines|]
  {
    if n > 0 {
      FilledInterleaves(rows, lines, n - 1);
      var before, k := Marked(rows, lines, n - 1), DialoguesIn(rows, n - 1);
      if !rows[n - 1].Dialogue? {
        MarkedAppend(before, (rows[n - 1].text, false));
        assert Only(before, true) + [] == Only(before, true);
      } else if k < |lines| {
        MarkedAppend(before, (lines[k], true));
        assert Only(before, false) + [] == Only(before, false);
        assert lines[..k + 1] == lines[..k] + [lines[k]];
      } else {
        assert before + [] == before;
      }
    }
  }

  /** Rewriting keeps every line that is not a cue, in order, and between them
      writes exactly the kept cues in stable start order, each as its own line,
      retimed if asked; it is refused only when the lines and cues do not match
      one to one, the format changes between cues, or a kept line cannot be
      retimed. */
  lemma OthersStay(rows: seq<Row>, cues: seq<Cue>, retime: Retiming) returns (marked: seq<(string, bool)>)
    requires Repaired(rows, cues, retime).Done?
    ensures Repaired(rows, cues, retime).lines == Texts(marked)
    ensures Only(marked, false) == Others(rows, |rows|)
    ensures IsStartOrder(cues, KeptInStartOrder(cues)) && |Only(marked, true)| == |KeptInStartOrder(cues)|
    ensures forall i | 0 <= i < |KeptInStartOrder(cues)| ::
              NewLine(cues, Cues(rows, |rows|), CueFormat(rows, |rows|), retime, KeptInStartOrder(cues)[i]) == Some(Only(marked, true)[i])
  {
    hide KeptInStartOrder, IsStartOrder, NewLine, Only, Texts;
    var order := KeptInStartOrder(cues);
    StartOrderFacts(cues);
    var written := NewLines(cues, Cues(rows, |rows|), CueFormat(rows, |rows|), retime, order, |order|).value;
    marked := Marked(rows, written, |rows|);
    FilledInterleaves(rows, written, |rows|);
    assert written[..|order|] == written;
  }
}
