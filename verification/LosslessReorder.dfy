/** Reordering moves lines and loses none: the output holds the input's
    nonblank lines, apart from renumbered SRT index lines. */
module LosslessReorder {
  import opened Text
  import opened CueBlocks
  import opened SubtitleRewrite
  import opened SubtitleReread
  import Sorting

  function Content(lines: seq<string>): multiset<string> { multiset(NonBlank(lines)) }

  /** The lines of record k that are not blank. */
  function RecordContent(job: Job, k: nat): multiset<string> {
    if k < |job.blocks| && job.blocks[k].start <= job.blocks[k].end <= |job.lines|
    then Content(job.lines[job.blocks[k].start..job.blocks[k].end]) else multiset{}
  }

  /** The index line of record k, when a rewrite renumbers it. */
  function OldIndex(job: Job, k: nat): multiset<string> {
    if k < |job.blocks| && job.Indexed(k) && job.blocks[k].start < |job.lines| then multiset{job.lines[job.blocks[k].start]} else multiset{}
  }

  /** What a sum over records adds up: their nonblank lines, or their old index lines. */
  datatype Part = Lines | Index

  function PartOf(job: Job, k: nat, part: Part): multiset<string> {
    if part == Lines then RecordContent(job, k) else OldIndex(job, k)
  }

  function Sum(job: Job, ks: seq<nat>, part: Part): multiset<string> {
    if ks == [] then multiset{} else PartOf(job, ks[0], part) + Sum(job, ks[1..], part)
  }

  /** The index lines written for the first n records. */
  function NewIndexes(job: Job, order: seq<nat>, n: nat): multiset<string>
    requires n <= |order|
  {
    if n == 0 then multiset{}
    else NewIndexes(job, order, n - 1) + if order[n - 1] < |job.blocks| && job.Indexed(order[n - 1]) then multiset{Itoa(n)} else multiset{}
  }

  /** The lines between the first n records. */
  function GapContent(job: Job, n: nat): multiset<string>
    requires WellPlaced(job) && n <= |job.blocks|
  {
    if n <= 1 then multiset{} else GapContent(job, n - 1) + Content(job.lines[job.blocks[n - 2].end..job.blocks[n - 1].start])
  }

  lemma {:induction false} SumAppend(job: Job, ks: seq<nat>, k: nat, part: Part)
    ensures Sum(job, ks + [k], part) == Sum(job, ks, part) + PartOf(job, k, part)
  {
    hide PartOf;
    if ks != [] {
      assert (ks + [k])[1..] == ks[1..] + [k];
      SumAppend(job, ks[1..], k, part);
    }
  }

  lemma {:induction false} SumOut(job: Job, ks: seq<nat>, i: nat, part: Part)
    requires i < |ks|
    ensures Sum(job, ks, part) == PartOf(job, ks[i], part) + Sum(job, ks[..i] + ks[i + 1..], part)
  {
    hide PartOf;
    if i > 0 {
      SumOut(job, ks[1..], i - 1, part);
      assert (ks[..i] + ks[i + 1..])[1..] == ks[1..][..i - 1] + ks[1..][i..];
    } else {
      assert ks[..0] + ks[1..] == ks[1..];
    }
  }

  /** A sum does not depend on the order of its terms. */
  lemma {:induction false} SumPermutes(job: Job, ks: seq<nat>, ls: seq<nat>, part: Part)
    requires multiset(ks) == multiset(ls)
    ensures Sum(job, ks, part) == Sum(job, ls, part)
  {
    hide PartOf;
    assert |multiset(ks)| == |ks| && |multiset(ls)| == |ls|;
    if ks != [] {
      assert ks[0] in multiset(ls);
      var i :| 0 <= i < |ls| && ls[i] == ks[0];
      Sorting.TakeOut(ks, ls, i);
      SumPermutes(job, ks[1..], ls[..i] + ls[i + 1..], part);
      SumOut(job, ls, i, part);
    }
  }

  lemma {:induction false} NonBlankAppend(a: seq<string>, b: seq<string>)
    ensures NonBlank(a + b) == NonBlank(a) + NonBlank(b)
  {
    hide Blank;
    if a == [] {
      assert a + b == b;
    } else {
      assert (a + b)[1..] == a[1..] + b;
      NonBlankAppend(a[1..], b);
    }
  }

  lemma ContentAppend(a: seq<string>, b: seq<string>)
    ensures Content(a + b) == Content(a) + Content(b)
  {
    hide NonBlank;
    NonBlankAppend(a, b);
  }

  lemma {:induction false} AllTextContent(lines: seq<string>)
    requires forall j | 0 <= j < |lines| :: !Blank(lines[j])
    ensures NonBlank(lines) == lines
  {
    hide Blank;
    if lines != [] {
      AllTextContent(lines[1..]);
    }
  }

  /** A written record holds the record's lines, but for its index line. */
  lemma RecordKeepsLines(job: Job, k: nat, i: nat)
    requires job.Valid() && WellPlaced(job) && !job.close && k < |job.blocks| && !job.cues[k].retime
    ensures Record(job, k, i).Some?
    ensures Content(Record(job, k, i).value) + OldIndex(job, k) ==
            RecordContent(job, k) + if job.Indexed(k) then multiset{Itoa(i + 1)} else multiset{}
  {
    hide Blank, IsTimingLine, IsCueList, NonBlank, Itoa;
    var b := job.blocks[k];
    BlockShape(job.lines, job.Vtt(), job.blocks, k);
    var raw := job.lines[b.start..b.end];
    NonBlankFacts(raw);
    var record := Record(job, k, i).value;
    if job.Indexed(k) {
      NonBlankHead(raw);
      ItoaIsPlain(i + 1);
      assert record == NonBlank(raw)[0 := Itoa(i + 1)];
      NewHead(NonBlank(raw), Itoa(i + 1));
    }
    AllTextContent(record);
  }

  lemma NewHead(record: seq<string>, index: string)
    requires record != []
    ensures multiset(record[0 := index]) + multiset{record[0]} == multiset(record) + multiset{index}
  {
  }

  lemma Regroup(before: multiset<string>, olds: multiset<string>, front: multiset<string>, lines: multiset<string>,
                gaps: multiset<string>, news: multiset<string>, gap: multiset<string>,
                record: multiset<string>, index: multiset<string>, content: multiset<string>, added: multiset<string>)
    requires before + olds == front + lines + gaps + news
    requires record + index == content + added
    ensures (before + gap + record) + (olds + index) == front + (lines + content) + (gaps + gap) + (news + added)
  {
    assert (before + gap + record) + (olds + index) == (before + olds) + gap + (record + index);
    assert front + (lines + content) + (gaps + gap) + (news + added) == (front + lines + gaps + news) + gap + (content + added);
  }

  lemma RegroupTail(out: multiset<string>, olds: multiset<string>, upto: multiset<string>, news: multiset<string>, tail: multiset<string>)
    requires out + olds == upto + news
    ensures (out + tail) + olds == (upto + tail) + news
  {
    assert (out + tail) + olds == (out + olds) + tail;
    assert (upto + tail) + news == (upto + news) + tail;
  }

  /** The lines that step n of the output adds. */
  lemma OutputStep(job: Job, order: seq<nat>, n: nat)
    requires job.Valid() && WellPlaced(job) && !job.close && !HasEdits(job.cues)
    requires 0 < n <= |order| <= |job.blocks| && forall k | k in order :: k < |job.blocks|
    requires Output(job, order, n - 1).Some?
    ensures order[n - 1] < |job.blocks| && Record(job, order[n - 1], n - 1).Some? && Output(job, order, n).Some?
    ensures Content(Output(job, order, n).value) ==
            Content(Output(job, order, n - 1).value) + GapBefore(job, n) + Content(Record(job, order[n - 1], n - 1).value)
  {
    hide Blank, IsCueList, Content, Record, Itoa, IsTimingLine, Gap;
    var k := order[n - 1];
    assert k in order && !job.cues[k].retime;
    RecordKeepsLines(job, k, n - 1);
    var before := Output(job, order, n - 1).value;
    var record := Record(job, k, n - 1).value;
    if n > 1 {
      GapLines(job, n - 1);
      ContentAppend(before, Gap(job, n - 1));
      ContentAppend(before + Gap(job, n - 1), record);
    } else {
      ContentAppend(before, record);
    }
  }

  function GapBefore(job: Job, n: nat): multiset<string>
    requires WellPlaced(job) && n <= |job.blocks|
  {
    if n <= 1 then multiset{} else Content(job.lines[job.blocks[n - 2].end..job.blocks[n - 1].start])
  }

  lemma {:induction false} OutputContent(job: Job, order: seq<nat>, n: nat)
    requires job.Valid() && WellPlaced(job) && !job.close && !HasEdits(job.cues)
    requires n <= |order| <= |job.blocks| && forall k | k in order :: k < |job.blocks|
    ensures Output(job, order, n).Some?
    ensures Content(Output(job, order, n).value) + Sum(job, order[..n], Index) ==
            Content(job.lines[..job.blocks[0].start]) + Sum(job, order[..n], Lines) + GapContent(job, n) + NewIndexes(job, order, n)
  {
    hide Blank, IsCueList, Content, Record, RecordContent, OldIndex, Itoa, IsTimingLine, Sum, Output, NewIndexes, GapContent, GapBefore, HasEdits;
    if n == 0 {
      assert order[..0] == [];
      NoOutput(job, order);
    } else {
      OutputContent(job, order, n - 1);
      OutputStep(job, order, n);
      var k := order[n - 1];
      NoRetimes(job, k);
      RecordKeepsLines(job, k, n - 1);
      assert order[..n] == order[..n - 1] + [k];
      SumAppend(job, order[..n - 1], k, Index);
      SumAppend(job, order[..n - 1], k, Lines);
      NextIndex(job, order, n);
      NextGap(job, n);
      var added := if job.Indexed(k) then multiset{Itoa(n)} else multiset{};
      Regroup(Content(Output(job, order, n - 1).value), Sum(job, order[..n - 1], Index), Content(job.lines[..job.blocks[0].start]),
              Sum(job, order[..n - 1], Lines), GapContent(job, n - 1), NewIndexes(job, order, n - 1), GapBefore(job, n),
              Content(Record(job, k, n - 1).value), OldIndex(job, k), RecordContent(job, k), added);
    }
  }

  lemma NoRetimes(job: Job, k: nat)
    requires job.Valid() && !HasEdits(job.cues) && k < |job.cues|
    ensures !job.cues[k].retime
  {
  }

  lemma NoOutput(job: Job, order: seq<nat>)
    requires job.Valid() && WellPlaced(job) && |order| <= |job.blocks| && forall k | k in order :: k < |job.blocks|
    ensures Output(job, order, 0) == Some(job.lines[..job.blocks[0].start])
    ensures Sum(job, [], Index) == multiset{} == Sum(job, [], Lines)
    ensures GapContent(job, 0) == multiset{} && NewIndexes(job, order, 0) == multiset{}
  {
    hide Blank, IsCueList, Content, IsTimingLine;
  }

  lemma NextIndex(job: Job, order: seq<nat>, n: nat)
    requires 0 < n <= |order| && order[n - 1] < |job.blocks|
    ensures NewIndexes(job, order, n) == NewIndexes(job, order, n - 1) + if job.Indexed(order[n - 1]) then multiset{Itoa(n)} else multiset{}
  {
    hide Itoa;
  }

  lemma NextGap(job: Job, n: nat)
    requires job.Valid() && WellPlaced(job) && 0 < n <= |job.blocks|
    ensures GapContent(job, n) == GapContent(job, n - 1) + GapBefore(job, n)
  {
    hide Content, Blank;
  }

  lemma GapLines(job: Job, i: nat)
    requires WellPlaced(job) && 0 < i < |job.blocks|
    ensures Content(Gap(job, i)) == Content(job.lines[job.blocks[i - 1].end..job.blocks[i].start])
  {
    hide Blank;
    BlankMeansSpaces("");
    assert [""][1..] == [];
  }

  lemma {:induction false} InputContent(job: Job, n: nat)
    requires WellPlaced(job) && !HasEdits(job.cues) && 0 < n <= |job.blocks|
    ensures Content(job.lines[..job.blocks[n - 1].end]) ==
            Content(job.lines[..job.blocks[0].start]) + Sum(job, KeptBelow(job.cues, n), Lines) + GapContent(job, n)
  {
    hide Content, RecordContent;
    var b := job.blocks[n - 1];
    assert !job.cues[n - 1].drop;
    SumAppend(job, KeptBelow(job.cues, n - 1), n - 1, Lines);
    ContentAppend(job.lines[..b.start], job.lines[b.start..b.end]);
    assert job.lines[..b.end] == job.lines[..b.start] + job.lines[b.start..b.end];
    RecordContentIs(job, n - 1);
    if n > 1 {
      InputContent(job, n - 1);
      var e := job.blocks[n - 2].end;
      assert job.lines[..b.start] == job.lines[..e] + job.lines[e..b.start];
      ContentAppend(job.lines[..e], job.lines[e..b.start]);
    } else {
      assert KeptBelow(job.cues, 0) == [];
    }
  }

  lemma RecordContentIs(job: Job, k: nat)
    requires WellPlaced(job) && k < |job.blocks|
    ensures RecordContent(job, k) == Content(job.lines[job.blocks[k].start..job.blocks[k].end])
  {
  }

  /** Up to the last record, the output's lines are the input's. */
  lemma RecordsMatch(job: Job, order: seq<nat>)
    requires job.Valid() && WellPlaced(job) && !job.close && !HasEdits(job.cues)
    requires order == KeptInStartOrder(job.cues)
    ensures |order| == |job.blocks| && forall k | k in order :: k < |job.blocks|
    ensures Output(job, order, |order|).Some?
    ensures Content(Output(job, order, |order|).value) + Sum(job, order, Index) ==
            Content(job.lines[..job.blocks[|job.blocks| - 1].end]) + NewIndexes(job, order, |order|)
  {
    hide Blank, IsCueList, Content, Record, RecordContent, OldIndex, Itoa, Output, NewIndexes, Sum, KeptBelow, GapContent;
    StartOrderFacts(job.cues);
    var n := |job.blocks|;
    OutputContent(job, order, |order|);
    assert order[..|order|] == order;
    InputContent(job, n);
    assert multiset(order) == multiset(KeptBelow(job.cues, n));
    SumPermutes(job, order, KeptBelow(job.cues, n), Lines);
    AllKept(job.cues);
    assert |order| == |multiset(order)| == |multiset(KeptBelow(job.cues, n))| == n;
  }

  /** A pure reorder never fails, and its output holds exactly the input's
      nonblank lines, with the old index lines replaced by the new ones. */
  lemma ReorderLosesNothing(job: Job)
    requires job.Valid() && WellPlaced(job) && !job.close && !HasEdits(job.cues)
    ensures RewriteBlocks(job).Rewritten?
    ensures var order := KeptInStartOrder(job.cues);
            Content(RewriteBlocks(job).lines) + Sum(job, order, Index) ==
            Content(job.lines) + NewIndexes(job, order, |order|)
    ensures job.format != Srt ==> Content(RewriteBlocks(job).lines) == Content(job.lines)
  {
    hide Blank, IsCueList, Content, Record, RecordContent, OldIndex, Itoa, Output, NewIndexes, Sum, KeptInStartOrder, IsStartOrder;
    var order := KeptInStartOrder(job.cues);
    RecordsMatch(job, order);
    var n := |job.blocks|;
    var end := job.blocks[n - 1].end;
    var out := Output(job, order, n).value;
    assert job.lines == job.lines[..end] + job.lines[end..];
    ContentAppend(job.lines[..end], job.lines[end..]);
    ContentAppend(out, job.lines[end..]);
    assert RewriteBlocks(job).lines == out + job.lines[end..];
    RegroupTail(Content(out), Sum(job, order, Index), Content(job.lines[..end]), NewIndexes(job, order, n), Content(job.lines[end..]));
    if job.format != Srt {
      NoIndexes(job, order, n);
      assert order[..n] == order;
      assert Content(out + job.lines[end..]) + multiset{} == Content(out + job.lines[end..]);
      assert Content(job.lines) + multiset{} == Content(job.lines);
    }
  }

  lemma {:induction false} NoIndexes(job: Job, order: seq<nat>, n: nat)
    requires job.format != Srt && n <= |order|
    ensures NewIndexes(job, order, n) == multiset{}
    ensures Sum(job, order[..n], Index) == multiset{}
  {
    if n > 0 {
      NoIndexes(job, order, n - 1);
      assert order[..n] == order[..n - 1] + [order[n - 1]];
      SumAppend(job, order[..n - 1], order[n - 1], Index);
    } else {
      assert order[..0] == [];
    }
  }

  lemma AllKept(cues: seq<Cue>)
    requires !HasEdits(cues)
    ensures |KeptBelow(cues, |cues|)| == |cues|
  {
    AllKeptBelow(cues, |cues|);
  }

  lemma {:induction false} AllKeptBelow(cues: seq<Cue>, n: nat)
    requires n <= |cues| && !HasEdits(cues)
    ensures |KeptBelow(cues, n)| == n
  {
    if n > 0 {
      AllKeptBelow(cues, n - 1);
    }
  }
}
