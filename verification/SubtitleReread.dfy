/** Reading a rewritten SRT file again: its cues are exactly the kept records,
    in start order, and a second repair leaves it alone. */
module SubtitleReread {
  import opened Text
  import opened CueBlocks
  import opened SubtitleRewrite
  import TimingLine

  // ---- single lines ------------------------------------------------------

  lemma TimingMeansArrow(line: string)
    ensures IsTimingLine(line, false) <==> Contains(line, ARROW)
    ensures IsTimingLine(line, false) ==> !Blank(line)
  {
    hide TrimSpace, Blank, Contains;
    TrimKeepsContains(line, ARROW);
    if Contains(line, ARROW) {
      ContainsIsOccurrence(line, ARROW);
      var k: nat :| At(line, ARROW, k);
      assert line[k] == line[k..k + |ARROW|][0];
      NonSpaceMeansNotBlank(line, k);
    }
  }

  lemma ItoaIsPlain(n: nat)
    ensures !IsTimingLine(Itoa(n), false) && !Blank(Itoa(n)) && TrimSpace(Itoa(n)) == Itoa(n)
  {
    hide Itoa, Contains, Blank;
    TimingMeansArrow(Itoa(n));
    ContainsNeeds(Itoa(n), ARROW, 0);
    NonSpaceMeansNotBlank(Itoa(n), 0);
  }

  lemma {:induction false} RepeatedTag(n: int)
    ensures var tags := Repeat("</i>", n); (n <= 0 ==> tags == "") && (n > 0 ==> tags != "" && tags[0] == '<') && '-' !in tags
  {
    if n > 0 {
      RepeatedTag(n - 1);
    }
  }

  /** Closing tags at the end of a line change neither its blankness (once it
      has text) nor whether it is a timing line. */
  lemma ClosingKeepsKind(line: string, n: int)
    requires !Blank(line)
    ensures !Blank(line + Repeat("</i>", n))
    ensures IsTimingLine(line + Repeat("</i>", n), false) <==> IsTimingLine(line, false)
  {
    hide TrimSpace, Blank, Contains, IsTimingLine, Repeat;
    var tags := Repeat("</i>", n);
    RepeatedTag(n);
    if tags == "" {
      assert line + tags == line;
    } else {
      assert (line + tags)[|line|] == '<' && '<' !in ARROW;
      NonSpaceMeansNotBlank(line + tags, |line|);
      TimingMeansArrow(line);
      TimingMeansArrow(line + tags);
      ContainsNeeds(tags, ARROW, 0);
      ContainsAppend(line, tags, ARROW);
    }
  }

  // ---- one record --------------------------------------------------------

  /** Lines that read as one cue: an optional index line, a timing line at
      offset, and text, none of them blank. */
  ghost predicate IsRecord(record: seq<string>, offset: nat) {
    && offset < |record| && offset <= 1
    && (forall j | 0 <= j < |record| :: !Blank(record[j]))
    && (forall j | 0 <= j < |record| :: IsTimingLine(record[j], false) <==> j == offset)
  }

  lemma {:induction false} NonBlankFacts(lines: seq<string>)
    ensures forall j | 0 <= j < |NonBlank(lines)| :: !Blank(NonBlank(lines)[j]) && NonBlank(lines)[j] in lines
  {
    hide Blank;
    if lines != [] {
      NonBlankFacts(lines[1..]);
    }
  }

  lemma NonBlankHead(lines: seq<string>)
    requires lines != [] && !Blank(lines[0])
    ensures NonBlank(lines) == [lines[0]] + NonBlank(lines[1..])
  {
    hide Blank;
  }

  lemma CueLinesAreRecord(job: Job, k: nat)
    requires job.Valid() && !job.Vtt() && k < |job.blocks|
    ensures WellPlaced(job)
    ensures IsRecord(CueLines(job.lines, job.blocks[k]), job.blocks[k].timing - job.blocks[k].start)
    ensures CueLines(job.lines, job.blocks[k])[job.blocks[k].timing - job.blocks[k].start] == job.lines[job.blocks[k].timing]
  {
    hide IsTimingLine, Blank, IsCueList;
    ValidIsWellPlaced(job);
    BlockShape(job.lines, false, job.blocks, k);
    var b := job.blocks[k];
    var raw := job.lines[b.start..b.end];
    var record := NonBlank(raw);
    var offset := b.timing - b.start;
    forall j | 0 <= j < |raw| ensures IsTimingLine(raw[j], false) <==> j == offset {
      OneTimingLine(job.lines, false, job.blocks, k, b.start + j);
    }
    TimingMeansArrow(raw[offset]);
    RecordOfRaw(raw, offset);
  }

  lemma RecordOfRaw(raw: seq<string>, offset: nat)
    requires offset < |raw| && offset <= 1 && !Blank(raw[offset]) && (offset == 1 ==> !Blank(raw[0]))
    requires forall j | 0 <= j < |raw| :: IsTimingLine(raw[j], false) <==> j == offset
    ensures IsRecord(NonBlank(raw), offset) && NonBlank(raw)[offset] == raw[offset]
  {
    hide IsTimingLine, Blank, NonBlank;
    var text := raw[offset + 1..];
    NonBlankFront(raw, offset);
    NonBlankFacts(text);
    forall line | line in text ensures !IsTimingLine(line, false) {
      var j :| 0 <= j < |text| && text[j] == line;
      assert line == raw[offset + 1 + j];
    }
    TextAfterTiming(raw[..offset + 1], NonBlank(text), offset);
  }

  lemma NonBlankFront(raw: seq<string>, offset: nat)
    requires offset < |raw| && offset <= 1 && !Blank(raw[offset]) && (offset == 1 ==> !Blank(raw[0]))
    ensures NonBlank(raw) == raw[..offset + 1] + NonBlank(raw[offset + 1..])
  {
    hide Blank, NonBlank;
    NonBlankHead(raw);
    if offset == 1 {
      NonBlankHead(raw[1..]);
      assert raw[1..][1..] == raw[2..];
      assert [raw[0]] + ([raw[1]] + NonBlank(raw[2..])) == raw[..2] + NonBlank(raw[2..]);
    }
  }

  lemma TextAfterTiming(front: seq<string>, text: seq<string>, offset: nat)
    requires |front| == offset + 1 && IsRecord(front, offset)
    requires forall j | 0 <= j < |text| :: !Blank(text[j]) && !IsTimingLine(text[j], false)
    ensures IsRecord(front + text, offset)
  {
    hide IsTimingLine, Blank;
  }

  /** Every record written is one cue again, at the same offset. */
  lemma RecordReadsAsCue(job: Job, k: nat, i: nat)
    requires job.Valid() && job.format == Srt && k < |job.blocks| && WellPlaced(job)
    requires Record(job, k, i).Some?
    ensures IsRecord(Record(job, k, i).value, job.blocks[k].timing - job.blocks[k].start)
  {
    hide IsTimingLine, Blank, IsCueList, CueLines, Balance, Repeat, TimingLine.Retimed, Itoa;
    CueLinesAreRecord(job, k);
    var offset := job.blocks[k].timing - job.blocks[k].start;
    var record := CueLines(job.lines, job.blocks[k]);
    if job.cues[k].retime {
      TimingLine.RetimedIsTiming(record[offset], job.cues[k].start, job.cues[k].end);
      TimingMeansArrow(TimingLine.Retimed(record[offset], job.cues[k].start, job.cues[k].end).value);
    }
    var timed := Timed(job, k).value;
    assert IsRecord(timed, offset);
    if job.close {
      ClosingKeepsKind(timed[|timed| - 1], Balance(timed));
    }
    ItoaIsPlain(i + 1);
  }

  // ---- growing a text by a record ----------------------------------------

  ghost predicate AllBlank(lines: seq<string>) {
    forall j | 0 <= j < |lines| :: Blank(lines[j])
  }

  /** No line, or a blank one, comes last. */
  predicate EndsBlank(lines: seq<string>) {
    lines == [] || Blank(lines[|lines| - 1])
  }

  lemma {:induction false} TimingsPrefix(lines: seq<string>, more: seq<string>, n: nat)
    requires n <= |lines|
    ensures Timings(lines + more, false, 0, n) == Timings(lines, false, 0, n)
  {
    hide IsTimingLine;
    if n > 0 {
      TimingsPrefix(lines, more, n - 1);
    }
  }

  lemma {:induction false} TimingsSkip(lines: seq<string>, from: nat, to: nat)
    requires from <= to <= |lines|
    requires forall j | from <= j < to :: !IsTimingLine(lines[j], false)
    ensures Timings(lines, false, 0, to) == Timings(lines, false, 0, from)
  {
    hide IsTimingLine;
    if from < to {
      TimingsSkip(lines, from, to - 1);
    }
  }

  lemma TimingsOfRecord(lines: seq<string>, gap: seq<string>, record: seq<string>, offset: nat)
    requires AllBlank(gap) && IsRecord(record, offset)
    ensures var longer := lines + gap + record;
            Timings(longer, false, 0, |longer|) == Timings(lines, false, 0, |lines|) + [|lines + gap| + offset]
  {
    hide IsTimingLine, Blank;
    var longer := lines + gap + record;
    var t := |lines + gap| + offset;
    assert longer == lines + (gap + record);
    TimingsPrefix(lines, gap + record, |lines|);
    forall j | |lines| <= j < t ensures !IsTimingLine(longer[j], false) {
      if j < |lines + gap| {
        assert longer[j] == gap[j - |lines|];
        TimingMeansArrow(longer[j]);
      } else {
        assert longer[j] == record[j - |lines + gap|];
      }
    }
    TimingsSkip(longer, |lines|, t);
    assert longer[t] == record[offset];
    forall j | t + 1 <= j < |longer| ensures !IsTimingLine(longer[j], false) {
      assert longer[j] == record[j - |lines + gap|];
    }
    TimingsSkip(longer, t + 1, |longer|);
  }

  lemma OldCuesStay(lines: seq<string>, blocks: seq<CueBlock>, more: seq<string>, block: CueBlock, k: nat)
    requires IsCueList(lines, false, blocks) && k < |blocks|
    requires |lines| <= block.start <= |lines + more|
    requires forall j | |lines| <= j < block.start :: Blank((lines + more)[j])
    ensures StartsRight(lines + more, false, blocks + [block], k)
    ensures EndsRight(lines + more, false, blocks + [block], k)
  {
    hide IsTimingLine, Blank, IsNumber, Timings;
    assert StartsRight(lines, false, blocks, k) && EndsRight(lines, false, blocks, k);
    var longer := lines + more;
    forall j | blocks[k].end <= j < Limit(longer, blocks + [block], k) ensures Blank(longer[j]) {
      if k + 1 == |blocks| && j < |lines| {
        assert longer[j] == lines[j];
      }
    }
  }

  /** A record after blank lines reads as one more cue. */
  lemma AppendRecord(lines: seq<string>, blocks: seq<CueBlock>, gap: seq<string>, record: seq<string>, offset: nat)
    requires IsCueList(lines, false, blocks)
    requires AllBlank(gap) && IsRecord(record, offset)
    requires offset == 1 || EndsBlank(lines + gap)
    ensures var block := CueBlock(|lines + gap|, |lines + gap| + offset, |lines + gap + record|);
            IsCueList(lines + gap + record, false, blocks + [block])
  {
    hide IsTimingLine, Blank, IsNumber, Timings;
    var block := CueBlock(|lines + gap|, |lines + gap| + offset, |lines + gap + record|);
    var longer := lines + gap + record;
    var all := blocks + [block];
    TimingsOfRecord(lines, gap, record, offset);
    assert longer == lines + (gap + record);
    forall j | |lines| <= j < block.start ensures Blank((lines + (gap + record))[j]) {
      assert (lines + (gap + record))[j] == gap[j - |lines|];
    }
    forall k | 0 <= k < |all| ensures StartsRight(longer, false, all, k) && EndsRight(longer, false, all, k) {
      if k < |blocks| {
        OldCuesStay(lines, blocks, gap + record, block, k);
      } else {
        NewCueReads(lines, blocks, gap, record, offset);
      }
    }
    assert TimingsOf(all) == TimingsOf(blocks) + [block.timing];
  }

  lemma NewCueReads(lines: seq<string>, blocks: seq<CueBlock>, gap: seq<string>, record: seq<string>, offset: nat)
    requires IsCueList(lines, false, blocks)
    requires IsRecord(record, offset) && (offset == 1 || EndsBlank(lines + gap))
    ensures var block := CueBlock(|lines + gap|, |lines + gap| + offset, |lines + gap + record|);
            && StartsRight(lines + gap + record, false, blocks + [block], |blocks|)
            && EndsRight(lines + gap + record, false, blocks + [block], |blocks|)
  {
    hide IsTimingLine, Blank, IsNumber, Timings;
    var block := CueBlock(|lines + gap|, |lines + gap| + offset, |lines + gap + record|);
    var longer := lines + gap + record;
    if blocks != [] {
      BlockShape(lines, false, blocks, |blocks| - 1);
    }
    assert Previous(0, blocks + [block], |blocks|) < |lines|;
    if offset == 1 {
      assert longer[block.timing - 1] == record[0];
    } else if block.timing > 0 {
      assert longer[block.timing - 1] == (lines + gap)[block.timing - 1];
    }
    assert longer[|longer| - 1] == record[|record| - 1];
  }

  /** Blank lines at the end add no cue. */
  lemma AppendBlank(lines: seq<string>, blocks: seq<CueBlock>, tail: seq<string>)
    requires IsCueList(lines, false, blocks) && AllBlank(tail)
    ensures IsCueList(lines + tail, false, blocks)
  {
    hide IsTimingLine, Blank, IsNumber, Timings;
    var longer := lines + tail;
    TimingsPrefix(lines, tail, |lines|);
    forall j | |lines| <= j < |longer| ensures !IsTimingLine(longer[j], false) && Blank(longer[j]) {
      assert longer[j] == tail[j - |lines|];
      TimingMeansArrow(longer[j]);
    }
    TimingsSkip(longer, |lines|, |longer|);
    forall k | 0 <= k < |blocks| ensures StartsRight(longer, false, blocks, k) && EndsRight(longer, false, blocks, k) {
      assert StartsRight(lines, false, blocks, k) && EndsRight(lines, false, blocks, k);
      BlockShape(lines, false, blocks, k);
    }
  }

  // ---- the whole output --------------------------------------------------

  /** The cues of the output after n records. */
  function Moved(job: Job, order: seq<nat>, n: nat): seq<CueBlock>
    requires WellPlaced(job) && n <= |order| <= |job.blocks| && forall k | k in order :: k < |job.blocks|
    requires Output(job, order, n).Some?
  {
    if n == 0 then []
    else
      var before := Output(job, order, n - 1).value;
      var start := |if n > 1 then before + Gap(job, n - 1) else before|;
      assert order[n - 1] in order;
      var source := job.blocks[order[n - 1]];
      Moved(job, order, n - 1) + [CueBlock(start, start + (source.timing - source.start), |Output(job, order, n).value|)]
  }

  /** No text stands right before the first record: the lines before it end
      with a blank line, or the first record has its own index line. */
  predicate FrontReads(job: Job)
    requires WellPlaced(job)
  {
    var order := KeptInStartOrder(job.cues);
    EndsBlank(job.lines[..job.blocks[0].start]) || order == [] || (order[0] < |job.blocks| && job.Indexed(order[0]))
  }

  ghost predicate NoTextIndex(lines: seq<string>, blocks: seq<CueBlock>) {
    forall k | 0 <= k < |blocks| :: !IndexIsText(lines, blocks[k])
  }

  lemma FrontHasNoCue(job: Job)
    requires job.Valid() && !job.Vtt() && WellPlaced(job)
    ensures var front := job.lines[..job.blocks[0].start];
            IsCueList(front, false, []) && forall j | 0 <= j < |front| :: !IsTimingLine(front[j], false)
  {
    hide IsTimingLine, Blank, IsNumber;
    var front := job.lines[..job.blocks[0].start];
    forall j | 0 <= j < |front| ensures !IsTimingLine(front[j], false) {
      NoTimingBefore(job.lines, false, job.blocks, j);
    }
    TimingsSkip(front, 0, |front|);
  }

  lemma GapIsBlank(job: Job, i: nat)
    requires job.Valid() && !job.Vtt() && WellPlaced(job) && 0 < i < |job.blocks|
    ensures AllBlank(Gap(job, i)) && Gap(job, i) != []
  {
    hide IsTimingLine, Blank, IsNumber, IsCueList;
    BlockShape(job.lines, false, job.blocks, i - 1);
    assert Blank("") by { BlankMeansSpaces(""); }
  }

  /** The new index line is not taken for text. */
  lemma NewIndexReads(lines: seq<string>, gap: seq<string>, record: seq<string>, offset: nat, i: nat)
    requires IsRecord(record, offset)
    requires offset == 1 ==> record[0] == Itoa(i + 1)
    requires EndsBlank(lines + gap) || (offset == 1 && i == 0 && gap == [] && !IsTimingLine(lines[|lines| - 1], false))
    ensures !IndexIsText(lines + gap + record, CueBlock(|lines + gap|, |lines + gap| + offset, |lines + gap + record|))
  {
    hide IsTimingLine, Blank;
    var longer := lines + gap + record;
    var t := |lines + gap| + offset;
    if offset == 1 {
      assert longer[t - 1] == Itoa(i + 1);
      assert t >= 2 ==> longer[t - 2] == (lines + gap)[t - 2];
      if !EndsBlank(lines + gap) {
        assert lines + gap == lines;
        ItoaIsPlain(1);
        assert Itoa(1) == "1" && "1"[..0] == "" && Number("1") == 1;
      }
    }
  }

  lemma IndexStays(lines: seq<string>, more: seq<string>, blocks: seq<CueBlock>)
    requires IsCueList(lines, false, blocks) && NoTextIndex(lines, blocks)
    ensures NoTextIndex(lines + more, blocks)
  {
    hide IsTimingLine, Blank, IsNumber, Timings;
    forall k | 0 <= k < |blocks| ensures !IndexIsText(lines + more, blocks[k]) {
      assert StartsRight(lines, false, blocks, k);
      assert !IndexIsText(lines, blocks[k]);
    }
  }

  ghost predicate HoldsRecords(job: Job, order: seq<nat>, n: nat, lines: seq<string>, blocks: seq<CueBlock>)
    requires WellPlaced(job) && n <= |order| && forall k | k in order :: k < |job.blocks|
  {
    && |blocks| == n
    && (forall i | 0 <= i < n :: HoldsRecord(job, order[i], i, lines, blocks[i]))
  }

  /** block holds record k as written at position i. */
  ghost predicate HoldsRecord(job: Job, k: nat, i: nat, lines: seq<string>, block: CueBlock)
    requires WellPlaced(job)
  {
    && k < |job.blocks|
    && block.start <= block.end <= |lines|
    && Record(job, k, i) == Some(lines[block.start..block.end])
    && block.timing - block.start == job.blocks[k].timing - job.blocks[k].start
  }

  /** After every record the output reads as exactly the records written. */
  lemma {:induction false} OutputReads(job: Job, order: seq<nat>, n: nat)
    requires job.Valid() && job.format == Srt && WellPlaced(job) && order == KeptInStartOrder(job.cues)
    requires n <= |order| <= |job.blocks| && forall k | k in order :: k < |job.blocks|
    requires Output(job, order, n).Some? && FrontReads(job)
    ensures IsCueList(Output(job, order, n).value, false, Moved(job, order, n))
    ensures NoTextIndex(Output(job, order, n).value, Moved(job, order, n))
    ensures HoldsRecords(job, order, n, Output(job, order, n).value, Moved(job, order, n))
  {
    hide IsTimingLine, Blank, IsNumber, IsCueList, Record, Gap, IndexIsText, KeptInStartOrder, Itoa;
    if n == 0 {
      FrontHasNoCue(job);
    } else {
      OutputReads(job, order, n - 1);
      var before := Output(job, order, n - 1).value;
      var gap := if n > 1 then Gap(job, n - 1) else [];
      var k := order[n - 1];
      assert k in order;
      var record := Record(job, k, n - 1).value;
      var after := Output(job, order, n).value;
      assert after == before + gap + record by { assert before + [] == before; }
      OneMoreReads(job, order, n, before, gap, record);
    }
  }

  lemma OneMoreReads(job: Job, order: seq<nat>, n: nat, before: seq<string>, gap: seq<string>, record: seq<string>)
    requires job.Valid() && job.format == Srt && WellPlaced(job) && order == KeptInStartOrder(job.cues)
    requires 0 < n <= |order| <= |job.blocks| && forall k | k in order :: k < |job.blocks|
    requires FrontReads(job)
    requires Output(job, order, n - 1) == Some(before)
    requires order[n - 1] < |job.blocks| && Record(job, order[n - 1], n - 1) == Some(record)
    requires gap == if n > 1 then Gap(job, n - 1) else []
    requires Output(job, order, n) == Some(before + gap + record)
    requires IsCueList(before, false, Moved(job, order, n - 1)) && NoTextIndex(before, Moved(job, order, n - 1))
    requires HoldsRecords(job, order, n - 1, before, Moved(job, order, n - 1))
    ensures IsCueList(before + gap + record, false, Moved(job, order, n))
    ensures NoTextIndex(before + gap + record, Moved(job, order, n))
    ensures HoldsRecords(job, order, n, before + gap + record, Moved(job, order, n))
  {
    hide IsTimingLine, Blank, IsNumber, IsCueList, Record, Gap, IndexIsText, KeptInStartOrder, Itoa, NoTextIndex, Output, EndsBlank, HoldsRecords;
    var k := order[n - 1];
    var offset := job.blocks[k].timing - job.blocks[k].start;
    var earlier := Moved(job, order, n - 1);
    var block := CueBlock(|before + gap|, |before + gap| + offset, |before + gap + record|);
    RecordReadsAsCue(job, k, n - 1);
    IndexLine(job, k, n - 1);
    PlaceForRecord(job, order, n, before, gap);
    AppendRecord(before, earlier, gap, record, offset);
    NewIndexReads(before, gap, record, offset, n - 1);
    assert before + gap + record == before + (gap + record);
    IndexStays(before, gap + record, earlier);
    AddIndex(before + gap + record, earlier, block);
    RecordsStay(job, order, n, before, gap, record, earlier, block);
    assert |before + gap| == |if n > 1 then before + Gap(job, n - 1) else before|;
    assert Moved(job, order, n) == earlier + [block];
  }

  /** What precedes record n - 1 in the output lets it be read where it starts. */
  lemma PlaceForRecord(job: Job, order: seq<nat>, n: nat, before: seq<string>, gap: seq<string>)
    requires job.Valid() && job.format == Srt && WellPlaced(job) && order == KeptInStartOrder(job.cues)
    requires 0 < n <= |order| <= |job.blocks| && forall k | k in order :: k < |job.blocks|
    requires order[n - 1] < |job.blocks| && FrontReads(job)
    requires Output(job, order, n - 1) == Some(before)
    requires gap == if n > 1 then Gap(job, n - 1) else []
    ensures AllBlank(gap)
    ensures EndsBlank(before + gap) ||
            (job.Indexed(order[n - 1]) && n == 1 && gap == [] && !IsTimingLine(before[|before| - 1], false))
  {
    hide IsTimingLine, Blank, IsNumber, IsCueList, Record, Gap, KeptInStartOrder;
    if n > 1 {
      GapIsBlank(job, n - 1);
      assert (before + gap)[|before + gap| - 1] == gap[|gap| - 1];
    } else {
      FrontHasNoCue(job);
      assert before + gap == before == job.lines[..job.blocks[0].start];
    }
  }

  lemma AddIndex(lines: seq<string>, blocks: seq<CueBlock>, block: CueBlock)
    requires NoTextIndex(lines, blocks) && !IndexIsText(lines, block)
    ensures NoTextIndex(lines, blocks + [block])
  {
    hide IndexIsText;
  }

  lemma IndexLine(job: Job, k: nat, i: nat)
    requires job.Valid() && job.format == Srt && WellPlaced(job) && k < |job.blocks| && Record(job, k, i).Some?
    ensures var offset := job.blocks[k].timing - job.blocks[k].start;
            offset <= 1 && (job.Indexed(k) <==> offset == 1) && Record(job, k, i).value != [] && (offset == 1 ==> Record(job, k, i).value[0] == Itoa(i + 1))
  {
    hide IsTimingLine, Blank, IsCueList, Itoa, Timed, Closed;
    RecordReadsAsCue(job, k, i);
    BlockShape(job.lines, false, job.blocks, k);
  }

  lemma RecordsStay(job: Job, order: seq<nat>, n: nat, before: seq<string>, gap: seq<string>, record: seq<string>,
                    earlier: seq<CueBlock>, block: CueBlock)
    requires WellPlaced(job) && 0 < n <= |order| && forall k | k in order :: k < |job.blocks|
    requires order[n - 1] < |job.blocks| && Record(job, order[n - 1], n - 1) == Some(record)
    requires HoldsRecords(job, order, n - 1, before, earlier)
    requires block.start == |before + gap| && block.end == |before + gap + record|
    requires block.timing - block.start == job.blocks[order[n - 1]].timing - job.blocks[order[n - 1]].start
    ensures HoldsRecords(job, order, n, before + gap + record, earlier + [block])
  {
    hide Record;
    var after := before + gap + record;
    forall i | 0 <= i < n ensures HoldsRecord(job, order[i], i, after, (earlier + [block])[i]) {
      if i < n - 1 {
        assert HoldsRecord(job, order[i], i, before, earlier[i]);
        assert after[earlier[i].start..earlier[i].end] == before[earlier[i].start..earlier[i].end];
      } else {
        assert after[block.start..block.end] == record;
      }
    }
  }

  /** read lists exactly the kept records, in stable start order. */
  ghost predicate ReadsAsKept(job: Job, lines: seq<string>, read: seq<CueBlock>)
    requires WellPlaced(job)
  {
    var order := KeptInStartOrder(job.cues);
    StartOrderFacts(job.cues);
    && |read| == |order|
    && forall i | 0 <= i < |order| :: HoldsRecord(job, order[i], i, lines, read[i])
  }

  lemma TailIsBlank(job: Job, order: seq<nat>)
    requires job.Valid() && !job.Vtt() && WellPlaced(job)
    ensures AllBlank(Tail(job, order))
  {
    hide IsTimingLine, Blank, IsNumber, IsCueList;
    BlockShape(job.lines, false, job.blocks, |job.blocks| - 1);
  }

  lemma FinalReads(job: Job, final: seq<string>)
    requires job.Valid() && job.format == Srt && WellPlaced(job) && RewriteBlocks(job) == Rewritten(final)
    requires FrontReads(job)
    ensures exists read :: IsCueList(final, false, read) && ReadsAsKept(job, final, read) && NoTextIndex(final, read)
  {
    hide IsTimingLine, Blank, IsNumber, IsCueList, Record, Gap, IndexIsText, KeptInStartOrder, Output, NoTextIndex;
    var order := KeptInStartOrder(job.cues);
    StartOrderFacts(job.cues);
    OutputReads(job, order, |order|);
    var out := Output(job, order, |order|).value;
    var read := Moved(job, order, |order|);
    var tail := Tail(job, order);
    TailIsBlank(job, order);
    AppendBlank(out, read, tail);
    IndexStays(out, tail, read);
    assert final == out + tail;
    forall i | 0 <= i < |order| ensures HoldsRecord(job, order[i], i, final, read[i]) {
      assert HoldsRecord(job, order[i], i, out, read[i]);
      assert final[read[i].start..read[i].end] == out[read[i].start..read[i].end];
    }
  }

  /** When text stands right before a record without an index line, the first
      cue read takes that text as its index. */
  lemma FrontTextIsTaken(job: Job, final: seq<string>, read: seq<CueBlock>)
    requires job.Valid() && job.format == Srt && WellPlaced(job) && RewriteBlocks(job) == Rewritten(final)
    requires !FrontReads(job) && IsCueList(final, false, read)
    ensures !ReadsAsKept(job, final, read)
  {
    hide IsTimingLine, Blank, IsNumber, Record, Gap, IndexIsText, KeptInStartOrder, NoTextIndex, IsCueList, HoldsRecord;
    var order := KeptInStartOrder(job.cues);
    StartOrderFacts(job.cues);
    var front := job.lines[..job.blocks[0].start];
    assert order[0] in order;
    FirstRecordPlace(job, order, |order|);
    var record := Record(job, order[0], 0).value;
    assert front + record <= final by {
      assert Output(job, order, |order|).value <= final;
    }
    RecordReadsAsCue(job, order[0], 0);
    IndexLine(job, order[0], 0);
    assert final[|front|] == (front + record)[|front|] == record[0];
    FrontHasNoCue(job);
    forall j | 0 <= j < |front| ensures !IsTimingLine(final[j], false) && final[j] == front[j] {
      assert final[j] == (front + record)[j];
    }
    FirstCueReadsBack(final, read, |front|);
    assert read != [] && read[0].timing != read[0].start;
    FirstHeld(job, final, read, order[0]);
    HeldOffset(job, order[0], final, read[0]);
  }

  lemma FirstHeld(job: Job, final: seq<string>, read: seq<CueBlock>, k: nat)
    requires job.Valid() && WellPlaced(job) && KeptInStartOrder(job.cues) != [] && k == KeptInStartOrder(job.cues)[0] && k < |job.blocks| && read != []
    ensures ReadsAsKept(job, final, read) ==> HoldsRecord(job, k, 0, final, read[0])
  {
    hide HoldsRecord, KeptInStartOrder;
  }

  lemma HeldOffset(job: Job, k: nat, lines: seq<string>, block: CueBlock)
    requires WellPlaced(job) && k < |job.blocks| && job.blocks[k].timing == job.blocks[k].start && block.timing != block.start
    ensures !HoldsRecord(job, k, 0, lines, block)
  {
  }

  lemma FirstCueReadsBack(lines: seq<string>, read: seq<CueBlock>, t: nat)
    requires IsCueList(lines, false, read)
    requires 0 < t < |lines| && IsTimingLine(lines[t], false) && !Blank(lines[t - 1])
    requires forall j | 0 <= j < t :: !IsTimingLine(lines[j], false)
    ensures read != [] && read[0].timing == t && read[0].start == t - 1
  {
    hide IsTimingLine, Blank, IsNumber, Timings;
    EveryTimingHasBlock(lines, false, read, t);
    TimingsAscend(lines, false, read, 0);
    assert StartsRight(lines, false, read, 0);
  }

  lemma {:induction false} FirstRecordPlace(job: Job, order: seq<nat>, n: nat)
    requires WellPlaced(job) && 0 < n <= |order| <= |job.blocks| && forall k | k in order :: k < |job.blocks|
    requires Output(job, order, n).Some?
    ensures order[0] < |job.blocks| && Record(job, order[0], 0).Some?
    ensures job.lines[..job.blocks[0].start] + Record(job, order[0], 0).value <= Output(job, order, n).value
  {
    hide Record, Gap;
    assert order[0] in order;
    if n > 1 {
      FirstRecordPlace(job, order, n - 1);
    }
  }

  /** Reading a rewritten SRT file gives exactly the kept records in stable
      start order, unambiguously, if and only if no text stands right before a
      first record that has no index line. */
  lemma RewrittenReadsAsKept(job: Job, final: seq<string>, read: seq<CueBlock>)
    requires job.Valid() && job.format == Srt && WellPlaced(job) && RewriteBlocks(job) == Rewritten(final)
    requires IsCueList(final, false, read)
    ensures ReadsAsKept(job, final, read) <==> FrontReads(job)
    ensures FrontReads(job) ==> !Ambiguous(final, false, read)
  {
    hide IsTimingLine, Blank, IsNumber, IsCueList, Record, Gap, IndexIsText, KeptInStartOrder, RewriteBlocks;
    if FrontReads(job) {
      FinalReads(job, final);
      var other :| IsCueList(final, false, other) && ReadsAsKept(job, final, other) && NoTextIndex(final, other);
      CueListUnique(final, false, other, read);
    } else {
      FrontTextIsTaken(job, final, read);
    }
  }

  /** The timing line of every kept cue: a retimed cue reads its new times, to
      the millisecond; any other keeps its line, up to closing tags at its end. */
  lemma TimingLinesRead(job: Job, final: seq<string>, read: seq<CueBlock>, i: nat)
    requires job.Valid() && job.format == Srt && WellPlaced(job) && RewriteBlocks(job) == Rewritten(final)
    requires ReadsAsKept(job, final, read) && i < |read|
    ensures var k := KeptInStartOrder(job.cues)[i];
            && k < |job.cues| && read[i].timing < |final|
            && (job.cues[k].retime && job.cues[k].start >= 0 && job.cues[k].end >= 0 ==>
                  var t := TimingLine.MatchTiming(final[read[i].timing]);
                  t.Some? && t.value.start == job.cues[k].start / TimingLine.MILLISECOND && t.value.end == job.cues[k].end / TimingLine.MILLISECOND)
            && (!job.cues[k].retime ==> job.lines[job.blocks[k].timing] <= final[read[i].timing])
  {
    hide IsTimingLine, Blank, IsNumber, IsCueList, KeptInStartOrder, RewriteBlocks, TimingLine.Retimed, TimingLine.MatchTiming;
    var order := KeptInStartOrder(job.cues);
    StartOrderFacts(job.cues);
    assert HoldsRecord(job, order[i], i, final, read[i]);
    var k := order[i];
    var record := Record(job, k, i).value;
    RecordReadsAsCue(job, k, i);
    var offset := job.blocks[k].timing - job.blocks[k].start;
    assert final[read[i].timing] == final[read[i].start..read[i].end][offset] == record[offset];
    WrittenTimingLine(job, k, i);
  }

  lemma WrittenTimingLine(job: Job, k: nat, i: nat)
    requires job.Valid() && job.format == Srt && WellPlaced(job) && k < |job.blocks|
    requires Record(job, k, i).Some?
    ensures var offset := job.blocks[k].timing - job.blocks[k].start;
            var record := Record(job, k, i).value;
            && offset < |record|
            && (job.cues[k].retime && job.cues[k].start >= 0 && job.cues[k].end >= 0 ==>
                  var t := TimingLine.MatchTiming(record[offset]);
                  t.Some? && t.value.start == job.cues[k].start / TimingLine.MILLISECOND && t.value.end == job.cues[k].end / TimingLine.MILLISECOND)
            && (!job.cues[k].retime ==> job.lines[job.blocks[k].timing] <= record[offset])
  {
    hide IsTimingLine, Blank, IsCueList, CueLines, Balance, Repeat, TimingLine.Retimed, TimingLine.MatchTiming, Itoa;
    RecordReadsAsCue(job, k, i);
    CueLinesAreRecord(job, k);
    var offset := job.blocks[k].timing - job.blocks[k].start;
    var source := CueLines(job.lines, job.blocks[k])[offset];
    var timed := Timed(job, k).value;
    var more := if job.close && offset == |timed| - 1 then MissingItalics(timed) else "";
    assert Record(job, k, i).value[offset] == timed[offset] + more by {
      assert timed[offset] + "" == timed[offset];
    }
    if job.cues[k].retime && job.cues[k].start >= 0 && job.cues[k].end >= 0 {
      TimingLine.RetimedReadsBack(source, job.cues[k].start, job.cues[k].end, more);
    }
  }
}
