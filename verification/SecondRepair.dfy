/** Repairing a repaired SRT file again: nothing changes, unless renumbering an
    index line took away a closing tag that the first repair had counted. */
module SecondRepair {
  import opened Text
  import opened CueBlocks
  import opened SubtitleRewrite
  import opened SubtitleReread

  /** The kept cues as a second repair sees them, with nothing left to edit. */
  function Unmarked(cues: seq<Cue>, order: seq<nat>): (r: seq<Cue>)
    requires forall k | k in order :: k < |cues|
    ensures |r| == |order| && forall i | 0 <= i < |order| :: order[i] in order && r[i] == cues[order[i]].(retime := false, drop := false)
  {
    seq(|order|, i requires 0 <= i < |order| => assert order[i] in order; cues[order[i]].(retime := false, drop := false))
  }

  /** The index line of record k closes more italics than it opens, while the
      rest of the record opens more than it closes. */
  predicate IndexClosesItalics(job: Job, k: nat)
    requires WellPlaced(job) && k < |job.blocks|
  {
    var timed := Timed(job, k);
    && job.Indexed(k) && timed.Some? && timed.value != []
    && Balance(timed.value[..1]) < 0 < Balance(timed.value[1..])
  }

  lemma {:induction false} TagCountCons(line: string, rest: seq<string>, tag: string)
    requires rest != [] && tag != "" && '\n' !in tag
    ensures TagCount([line] + rest, tag) == TagCount([line], tag) + TagCount(rest, tag)
  {
    var text := Join(rest, "\n");
    assert Join([line] + rest, "\n") == line + ("\n" + text) by {
      assert ([line] + rest)[1..] == rest;
    }
    LowerAppend(line, "\n" + text);
    LowerAppend("\n", text);
    assert Lower("\n") == "\n";
    CountAppend(Lower(line), "\n" + Lower(text), tag);
    assert ("\n" + Lower(text))[1..] == Lower(text);
    assert !(tag <= "\n" + Lower(text)) by { assert tag[0] in tag; }
  }

  lemma {:induction false} TagCountAppendLast(record: seq<string>, tail: string, tag: string)
    requires record != [] && tag != "" && '\n' !in tag && (tail == "" || (tail[0] !in tag[1..] && LowerChar(tail[0]) == tail[0]))
    ensures TagCount(record[|record| - 1 := record[|record| - 1] + tail], tag) == TagCount(record, tag) + Count(Lower(tail), tag)
  {
    hide Lower, Count;
    var after := record[|record| - 1 := record[|record| - 1] + tail];
    if |record| == 1 {
      LowerAppend(record[0], tail);
      CountAppend(Lower(record[0]), Lower(tail), tag);
    } else {
      TagCountAppendLast(record[1..], tail, tag);
      TagCountCons(record[0], record[1..], tag);
      TagCountCons(record[0], after[1..], tag);
      assert record == [record[0]] + record[1..];
      assert after == [record[0]] + after[1..];
      assert after[1..] == record[1..][|record| - 2 := record[1..][|record| - 2] + tail];
    }
  }

  lemma {:induction false} ClosingTagsCount(n: nat)
    ensures var tags := Repeat("</i>", n);
            Count(Lower(tags), "<i>") == 0 && Count(Lower(tags), "</i>") == n && Lower(tags) == tags
  {
    if n > 0 {
      ClosingTagsCount(n - 1);
      var rest := Repeat("</i>", n - 1);
      var tags := "</i>" + rest;
      LowerAppend("</i>", rest);
      assert Lower("</i>") == "</i>";
      assert Lower(tags) == tags;
      assert tags[4..] == rest;
      assert tags[0] == '<' && tags[1] == '/' && tags[2] == 'i' && tags[3] == '>';
      assert Count(tags, "</i>") == 1 + Count(rest, "</i>");
      SkipClosingTag(tags, rest);
    }
  }

  lemma SkipClosingTag(tags: string, rest: string)
    requires tags == "</i>" + rest
    ensures Count(tags, "<i>") == Count(rest, "<i>")
  {
    assert tags[1..] == "/i>" + rest && tags[1..][1..] == "i>" + rest && tags[1..][1..][1..] == ">" + rest && tags[1..][1..][1..][1..] == rest;
    assert tags[1] == '/';
    Skip(tags);
    Skip(tags[1..]);
    Skip(tags[1..][1..]);
    Skip(tags[1..][1..][1..]);
  }

  lemma Skip(s: string)
    requires |s| >= 1 && (s[0] != '<' || (|s| >= 2 && s[1] != 'i'))
    ensures Count(s, "<i>") == Count(s[1..], "<i>")
  {
  }

  lemma BalanceCons(line: string, rest: seq<string>)
    requires rest != []
    ensures Balance([line] + rest) == Balance([line]) + Balance(rest)
  {
    hide TagCount;
    TagCountCons(line, rest, "<i>");
    TagCountCons(line, rest, "</i>");
  }

  /** Closing a record's italics leaves none open. */
  lemma ClosedBalance(record: seq<string>)
    requires record != []
    ensures Balance(Closed(record)) == if Balance(record) > 0 then 0 else Balance(record)
  {
    hide TagCount, Lower, Count, Repeat;
    var n := if Balance(record) > 0 then Balance(record) else 0;
    var tags := MissingItalics(record);
    assert tags == Repeat("</i>", n) by { if Balance(record) <= 0 { RepeatNothing(Balance(record)); } }
    RepeatedTag(n);
    ClosingTagsCount(n);
    TagCountAppendLast(record, tags, "<i>");
    TagCountAppendLast(record, tags, "</i>");
  }

  lemma RepeatNothing(n: int)
    requires n <= 0
    ensures Repeat("</i>", n) == "" == Repeat("</i>", 0)
  {
  }

  lemma {:induction false} NoTagWithout(s: string, tag: string)
    requires tag != "" && tag[0] !in s
    ensures Count(s, tag) == 0
  {
    if s != "" {
      NoTagWithout(s[1..], tag);
    }
  }

  lemma IndexHasNoTags(n: nat)
    ensures Balance([Itoa(n)]) == 0
  {
    hide Itoa, Count;
    assert Join([Itoa(n)], "\n") == Itoa(n);
    assert '<' !in Lower(Itoa(n));
    NoTagWithout(Lower(Itoa(n)), "<i>");
    NoTagWithout(Lower(Itoa(n)), "</i>");
  }

  /** The italics that record k leaves open once written. */
  lemma WrittenBalance(job: Job, k: nat, i: nat)
    requires job.Valid() && job.format == Srt && job.close && WellPlaced(job) && k < |job.blocks|
    requires Record(job, k, i).Some?
    ensures Balance(Record(job, k, i).value) > 0 <==> IndexClosesItalics(job, k)
  {
    hide IsTimingLine, Blank, IsCueList, Balance, Itoa, MissingItalics, Timed;
    var timed := Timed(job, k).value;
    var record := Record(job, k, i).value;
    IndexLine(job, k, i);
    RecordReadsAsCue(job, k, i);
    assert |timed| == |record|;
    ClosedBalance(timed);
    if job.Indexed(k) {
      var closed := Closed(timed);
      assert |timed| > 1;
      assert closed == [timed[0]] + closed[1..];
      assert timed == [timed[0]] + timed[1..] && timed[..1] == [timed[0]];
      assert record == [Itoa(i + 1)] + closed[1..];
      BalanceCons(timed[0], timed[1..]);
      BalanceCons(timed[0], closed[1..]);
      BalanceCons(Itoa(i + 1), closed[1..]);
      IndexHasNoTags(i + 1);
    }
  }

  lemma HeldBalance(job: Job, k: nat, i: nat, lines: seq<string>, block: CueBlock)
    requires job.Valid() && job.format == Srt && job.close && WellPlaced(job) && k < |job.blocks|
    requires HoldsRecord(job, k, i, lines, block)
    ensures MissingItalics(lines[block.start..block.end]) != "" <==> IndexClosesItalics(job, k)
  {
    hide IsCueList, Record, Balance, IndexClosesItalics;
    WrittenBalance(job, k, i);
    RepeatedTag(Balance(lines[block.start..block.end]));
  }

  /** A second repair with the kept cues unmarked changes nothing, if and only
      if no kept record's index line closed italics that its text opens. */
  lemma SecondRepairChangesNothing(job: Job, final: seq<string>, read: seq<CueBlock>)
    requires job.Valid() && job.format == Srt && job.close && WellPlaced(job) && FrontReads(job)
    requires RewriteBlocks(job) == Rewritten(final) && IsCueList(final, false, read)
    ensures var order := KeptInStartOrder(job.cues);
            (forall k | k in order :: k < |job.cues|) &&
            (Rewrite(Job(final, Srt, Unmarked(job.cues, order), true, read)) == Unchanged <==>
             forall k | k in order :: !IndexClosesItalics(job, k))
  {
    hide IsCueList, Record, Balance, IndexClosesItalics, KeptInStartOrder, RewriteBlocks, Ambiguous, MissingItalics, HoldsRecord;
    var order := KeptInStartOrder(job.cues);
    StartOrderFacts(job.cues);
    RewrittenReadsAsKept(job, final, read);
    var again := Job(final, Srt, Unmarked(job.cues, order), true, read);
    assert !HasEdits(again.cues);
    forall i | 1 <= i < |order| ensures again.cues[i - 1].start <= again.cues[i].start {
      assert PlaysBefore(job.cues, order[i - 1], order[i]);
    }
    assert InStartOrder(again.cues);
    BlocksInRange(again);
    forall i | 0 <= i < |order|
      ensures order[i] in order && (MissingItalics(final[read[i].start..read[i].end]) != "" <==> IndexClosesItalics(job, order[i]))
    {
      assert order[i] in order;
      HeldBalance(job, order[i], i, final, read[i]);
    }
    assert HasUnclosedItalics(final, read) <==> exists k | k in order :: IndexClosesItalics(job, k);
  }
}
