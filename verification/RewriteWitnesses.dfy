/** Concrete subtitles at which the rewrite does less than one might expect: one
    whose second repair still changes it, and one that is read back wrongly. */
module RewriteWitnesses {
  import opened Text
  import Sorting
  import opened CueBlocks
  import opened SubtitleRewrite
  import opened SubtitleReread
  import opened SecondRepair

  const TIMES := "00:00:01,000 --> 00:00:02,000"

  const LOST_TAG := Job(["</i>", TIMES, "<i>A", "", TIMES], Srt, [Cue(0, 0, false, false), Cue(1, 1, false, true)], true,
                        [CueBlock(0, 1, 3), CueBlock(4, 4, 5)])

  lemma NoTiming(s: string)
    requires '-' !in s
    ensures !IsTimingLine(s, false)
  {
    hide IsTimingLine, Contains;
    ContainsNeeds(s, ARROW, 0);
    TimingMeansArrow(s);
  }

  lemma TimesAreTiming()
    ensures IsTimingLine(TIMES, false) && !Blank(TIMES)
  {
    hide IsTimingLine, Blank, Contains;
    assert TIMES == "00:00:01,000 " + ARROW + " 00:00:02,000";
    ContainsAround("00:00:01,000 ", ARROW, " 00:00:02,000");
    TimingMeansArrow(TIMES);
    NonSpaceMeansNotBlank(TIMES, 0);
  }

  lemma WitnessLines()
    ensures IsTimingLine(TIMES, false)
    ensures !IsTimingLine("</i>", false) && !IsTimingLine("<i>A", false) && !IsTimingLine("", false)
    ensures !IsTimingLine("X", false) && !IsTimingLine("1", false)
    ensures !Blank(TIMES) && !Blank("</i>") && !Blank("<i>A") && !Blank("X") && !Blank("1") && Blank("")
  {
    hide IsTimingLine, Blank;
    TimesAreTiming();
    NoTiming("</i>");
    NoTiming("<i>A");
    NoTiming("");
    NoTiming("X");
    NoTiming("1");
    NonSpaceMeansNotBlank("</i>", 0);
    NonSpaceMeansNotBlank("<i>A", 0);
    NonSpaceMeansNotBlank("X", 0);
    NonSpaceMeansNotBlank("1", 0);
    BlankMeansSpaces("");
  }

  lemma WitnessIsValid()
    ensures LOST_TAG.Valid() && WellPlaced(LOST_TAG) && FrontReads(LOST_TAG)
    ensures !Ambiguous(LOST_TAG.lines, false, LOST_TAG.blocks)
  {
    hide IsTimingLine, Blank, IsNumber;
    WitnessLines();
    var lines := LOST_TAG.lines;
    var blocks := LOST_TAG.blocks;
    TimingsSkip(lines, 0, 1);
    TimingsSkip(lines, 2, 4);
    assert Timings(lines, false, 0, 2) == [1];
    assert Timings(lines, false, 0, 5) == [1, 4] == TimingsOf(blocks);
    assert StartsRight(lines, false, blocks, 0) && StartsRight(lines, false, blocks, 1);
    assert EndsRight(lines, false, blocks, 0) && EndsRight(lines, false, blocks, 1);
    ValidIsWellPlaced(LOST_TAG);
  }

  lemma TimesHoldNoTag()
    ensures Balance([TIMES]) == 0
  {
    hide Count;
    assert Join([TIMES], "\n") == TIMES;
    assert '<' !in TIMES;
    assert '<' !in Lower(TIMES);
    NoTagWithout(Lower(TIMES), "<i>");
    NoTagWithout(Lower(TIMES), "</i>");
  }

  lemma ClosesOne()
    ensures Balance(["</i>"]) == -1
  {
    hide Count, Lower;
    assert Join(["</i>"], "\n") == "</i>";
    ClosingTagsCount(1);
    assert Repeat("</i>", 1) == "</i>" + Repeat("</i>", 0) == "</i>";
  }

  lemma OpensOne()
    ensures Balance(["<i>A"]) == 1
  {
    hide Count;
    assert Join(["<i>A"], "\n") == "<i>A";
    var text := Lower("<i>A");
    assert text == "<i>a";
    OpenTagCount(text);
  }

  lemma OpenTagCount(text: string)
    requires text == "<i>a"
    ensures Count(text, "<i>") == 1 && Count(text, "</i>") == 0
  {
    assert text[3..] == "a" && text[1..] == "i>a";
    NoTagWithout(text[3..], "<i>");
    NoTagWithout(text[1..], "</i>");
    assert text[1] != "</i>"[1];
  }

  lemma OnlyFirst(cues: seq<Cue>, k: nat)
    requires k < |cues| <= 2 && forall i | 0 <= i < |cues| :: cues[i].drop <==> i != k
    ensures KeptInStartOrder(cues) == [k]
  {
    assert KeptBelow(cues, 0) == [] && KeptBelow(cues, 1) == if k == 0 then [0] else [];
    assert KeptBelow(cues, |cues|) == [k];
    OnlyOne(k, (i: nat, j: nat) => StartAt(cues, i) <= StartAt(cues, j));
  }

  lemma OnlyOne(k: nat, le: (nat, nat) -> bool)
    ensures Sorting.StableSort([k], le) == [k]
  {
    assert [k][1..] == [];
  }

  lemma FirstIndex()
    ensures Itoa(1) == "1" && IsNumber(TrimSpace("1"))
  {
    assert TrimLeft("1") == "1" && TrimRight("1") == "1";
  }

  lemma NonBlankThree(a: string, b: string, c: string)
    requires !Blank(a) && !Blank(b) && !Blank(c)
    ensures NonBlank([a, b, c]) == [a, b, c]
  {
    hide Blank;
    var record := [a, b, c];
    NonBlankHead(record);
    NonBlankHead(record[1..]);
    NonBlankHead(record[2..]);
    assert record[1..][1..] == record[2..] && record[2..][1..] == [];
    NothingLeft();
  }

  lemma NothingLeft()
    ensures NonBlank([]) == []
  {
  }

  const ONCE := ["1", TIMES, "<i>A"]
  const TWICE := ["1", TIMES, "<i>A</i>"]

  /** The first repair: the index line "</i>" is counted as a closing tag and
      then renumbered. */
  lemma FirstRepairLosesTag()
    ensures WellPlaced(LOST_TAG) && RewriteBlocks(LOST_TAG) == Rewritten(ONCE)
    ensures !LOST_TAG.cues[0].drop && IndexClosesItalics(LOST_TAG, 0)
  {
    hide IsTimingLine, Blank, IsCueList, Balance, NonBlank, KeptInStartOrder, Repeat;
    WitnessLines();
    WitnessIsValid();
    TimesHoldNoTag();
    ClosesOne();
    OpensOne();
    FirstIndex();
    OnlyFirst(LOST_TAG.cues, 0);
    var record := ["</i>", TIMES, "<i>A"];
    assert LOST_TAG.lines[0..3] == record;
    NonBlankThree("</i>", TIMES, "<i>A");
    assert CueLines(LOST_TAG.lines, LOST_TAG.blocks[0]) == record;
    assert record[..1] == ["</i>"] && record[1..] == [TIMES] + ["<i>A"] && record == ["</i>"] + record[1..];
    BalanceCons(TIMES, ["<i>A"]);
    BalanceCons("</i>", record[1..]);
    RepeatNothing(0);
    assert record[2] + "" == record[2] && record[2 := record[2]] == record;
    assert Closed(record) == record && record[0 := "1"] == ONCE;
    assert Timed(LOST_TAG, 0) == Some(record) && LOST_TAG.Indexed(0);
    assert Record(LOST_TAG, 0, 0) == Some(ONCE);
    var order := KeptInStartOrder(LOST_TAG.cues);
    assert Output(LOST_TAG, order, 0) == Some([]);
    assert Output(LOST_TAG, order, 1) == Some([] + ONCE);
    assert Tail(LOST_TAG, order) == [];
  }

  const AGAIN := Job(ONCE, Srt, [Cue(0, 0, false, false)], true, [CueBlock(0, 1, 3)])

  lemma AgainIsValid()
    ensures AGAIN.Valid() && WellPlaced(AGAIN) && !Ambiguous(ONCE, false, AGAIN.blocks)
    ensures AGAIN.cues == Unmarked(LOST_TAG.cues, [0])
  {
    hide IsTimingLine, Blank, IsNumber;
    WitnessLines();
    TimingsSkip(ONCE, 0, 1);
    TimingsSkip(ONCE, 2, 3);
    assert Timings(ONCE, false, 0, 2) == [1];
    assert Timings(ONCE, false, 0, 3) == [1] == TimingsOf(AGAIN.blocks);
    assert StartsRight(ONCE, false, AGAIN.blocks, 0) && EndsRight(ONCE, false, AGAIN.blocks, 0);
    ValidIsWellPlaced(AGAIN);
  }

  /** The second repair, with the kept cue unmarked, closes the italics that the
      first one took for closed. */
  lemma SecondRepairMayClose()
    ensures LOST_TAG.Valid() && Rewrite(LOST_TAG) == Rewritten(ONCE)
    ensures KeptInStartOrder(LOST_TAG.cues) == [0] && AGAIN.cues == Unmarked(LOST_TAG.cues, [0])
    ensures AGAIN.Valid() && AGAIN.lines == ONCE && AGAIN.close && Rewrite(AGAIN) == Rewritten(TWICE)
  {
    hide IsCueList, KeptInStartOrder, Rewrite;
    WitnessIsValid();
    FirstRepairRuns();
    OnlyFirst(LOST_TAG.cues, 0);
    AgainIsValid();
    SecondRepairRuns();
  }

  lemma FirstRepairRuns()
    requires LOST_TAG.Valid()
    ensures Rewrite(LOST_TAG) == Rewritten(ONCE)
  {
    hide IsCueList, RewriteBlocks, Ambiguous, HasUnclosedItalics;
    WitnessIsValid();
    FirstRepairLosesTag();
    assert HasEdits(LOST_TAG.cues) by { assert LOST_TAG.cues[1].drop; }
  }

  lemma SecondRepairRuns()
    requires AGAIN.Valid()
    ensures Rewrite(AGAIN) == Rewritten(TWICE)
  {
    hide IsCueList, RewriteBlocks, Ambiguous, MissingItalics;
    AgainIsValid();
    SecondRepairRewrites();
    ItalicsStayOpen();
    BlocksInRange(AGAIN);
    assert HasUnclosedItalics(AGAIN.lines, AGAIN.blocks) by {
      assert ONCE[AGAIN.blocks[0].start..AGAIN.blocks[0].end] == ONCE;
    }
  }

  lemma ItalicsStayOpen()
    ensures Balance(ONCE) == 1 && MissingItalics(ONCE) == "</i>"
  {
    hide Balance;
    TimesHoldNoTag();
    OpensOne();
    FirstIndex();
    IndexHasNoTags(1);
    assert ONCE == ["1"] + [TIMES, "<i>A"] && [TIMES, "<i>A"] == [TIMES] + ["<i>A"];
    BalanceCons("1", [TIMES, "<i>A"]);
    BalanceCons(TIMES, ["<i>A"]);
    assert Repeat("</i>", 1) == "</i>" + Repeat("</i>", 0) == "</i>";
  }

  lemma SecondRepairRewrites()
    requires WellPlaced(AGAIN)
    ensures RewriteBlocks(AGAIN) == Rewritten(TWICE)
  {
    hide IsTimingLine, Blank, IsCueList, Balance, NonBlank, KeptInStartOrder, Repeat, MissingItalics;
    WitnessLines();
    FirstIndex();
    OnlyFirst(AGAIN.cues, 0);
    assert ONCE[0..3] == ONCE;
    NonBlankThree("1", TIMES, "<i>A");
    assert CueLines(ONCE, AGAIN.blocks[0]) == ONCE;
    ItalicsStayOpen();
    assert "<i>A" + "</i>" == "<i>A</i>";
    assert Closed(ONCE) == ONCE[2 := "<i>A</i>"] == TWICE && TWICE[0 := "1"] == TWICE;
    assert Timed(AGAIN, 0) == Some(ONCE) && AGAIN.Indexed(0);
    assert Record(AGAIN, 0, 0) == Some(TWICE);
    var order := KeptInStartOrder(AGAIN.cues);
    assert Output(AGAIN, order, 0) == Some([]);
    assert Output(AGAIN, order, 1) == Some([] + TWICE);
    assert Tail(AGAIN, order) == [];
  }

  // ---- text before a record without an index line ------------------------

  const MISREAD := Job(["X", "1", TIMES, "", TIMES], Srt, [Cue(0, 0, false, true), Cue(1, 1, false, false)], false,
                       [CueBlock(1, 2, 3), CueBlock(4, 4, 5)])

  lemma MisreadIsValid()
    ensures MISREAD.Valid() && WellPlaced(MISREAD) && !Ambiguous(MISREAD.lines, false, MISREAD.blocks)
  {
    hide IsTimingLine, Blank, IsNumber;
    WitnessLines();
    FirstIndex();
    var lines := MISREAD.lines;
    var blocks := MISREAD.blocks;
    TimingsSkip(lines, 0, 2);
    TimingsSkip(lines, 3, 4);
    assert Timings(lines, false, 0, 3) == [2];
    assert Timings(lines, false, 0, 5) == [2, 4] == TimingsOf(blocks);
    assert StartsRight(lines, false, blocks, 0) && StartsRight(lines, false, blocks, 1);
    assert EndsRight(lines, false, blocks, 0) && EndsRight(lines, false, blocks, 1);
    ValidIsWellPlaced(MISREAD);
  }

  /** Dropping the first cue puts the text "X" right before the second, which
      has no index line: read again, the text is taken for its index. */
  lemma FrontTextMisread(read: seq<CueBlock>)
    requires IsCueList(["X", TIMES], false, read)
    ensures MISREAD.Valid() && WellPlaced(MISREAD) && !FrontReads(MISREAD)
    ensures Rewrite(MISREAD) == Rewritten(["X", TIMES])
    ensures read == [CueBlock(0, 1, 2)] && !ReadsAsKept(MISREAD, ["X", TIMES], read)
  {
    hide IsTimingLine, Blank, IsCueList, NonBlank, KeptInStartOrder, Ambiguous, RewriteBlocks;
    MisreadIsValid();
    MisreadRewrites();
    assert HasEdits(MISREAD.cues) by { assert MISREAD.cues[0].drop; }
    FrontTextIsTaken(MISREAD, ["X", TIMES], read);
    MisreadCues();
    CueListUnique(["X", TIMES], false, read, [CueBlock(0, 1, 2)]);
  }

  lemma MisreadCues()
    ensures IsCueList(["X", TIMES], false, [CueBlock(0, 1, 2)])
  {
    hide IsTimingLine, Blank, IsNumber;
    WitnessLines();
    var lines, blocks := ["X", TIMES], [CueBlock(0, 1, 2)];
    TimingsSkip(lines, 0, 1);
    assert Timings(lines, false, 0, 2) == [1] == TimingsOf(blocks);
    assert StartsRight(lines, false, blocks, 0) && EndsRight(lines, false, blocks, 0);
  }

  lemma MisreadRewrites()
    requires WellPlaced(MISREAD)
    ensures !FrontReads(MISREAD) && RewriteBlocks(MISREAD) == Rewritten(["X", TIMES])
  {
    hide IsTimingLine, Blank, IsCueList, NonBlank, KeptInStartOrder;
    WitnessLines();
    OnlyFirst(MISREAD.cues, 1);
    assert MISREAD.lines[4..5] == [TIMES];
    NonBlankHead([TIMES]);
    NothingLeft();
    assert [TIMES][1..] == [];
    assert CueLines(MISREAD.lines, MISREAD.blocks[1]) == [TIMES];
    assert Timed(MISREAD, 1) == Some([TIMES]) && !MISREAD.Indexed(1);
    assert Record(MISREAD, 1, 0) == Some([TIMES]);
    var order := KeptInStartOrder(MISREAD.cues);
    assert MISREAD.lines[..1] == ["X"];
    assert Output(MISREAD, order, 0) == Some(["X"]);
    assert Output(MISREAD, order, 1) == Some(["X"] + [TIMES]);
    assert Tail(MISREAD, order) == [];
  }
}
