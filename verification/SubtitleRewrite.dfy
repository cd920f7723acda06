/** Rewriting an SRT or WebVTT subtitle: whole cue records move into start
    order, dropped cues disappear, retimed cues get new times, and unclosed
    italics are closed (internal/subtitleorder/order.go). */
module SubtitleRewrite {
  import opened Text
  import opened CueBlocks
  import TimingLine
  import Sorting

  datatype Cue = Cue(start: int, end: int, retime: bool, drop: bool)

  /** ".srt", ".vtt", or another extension, which is read like SRT but keeps its index lines. */
  datatype Format = Srt | WebVtt | Other

  datatype Outcome = Unchanged | Rewritten(lines: seq<string>) | Unsafe

  /** A rewrite: the lines, the parsed cues, whether to close italics, and the
      records found in the lines. */
  datatype Job = Job(lines: seq<string>, format: Format, cues: seq<Cue>, close: bool, blocks: seq<CueBlock>) {

    function Vtt(): bool { format == WebVtt }

    /** The records were found in the lines and match the cues one to one. */
    ghost predicate Valid() {
      IsCueList(lines, Vtt(), blocks) && |blocks| == |cues| > 0
    }

    /** Record k has an index line that a rewrite renumbers. */
    predicate Indexed(k: nat)
      requires k < |blocks|
    {
      format == Srt && blocks[k].timing > blocks[k].start
    }
  }

  // ---- start order -------------------------------------------------------

  function KeptBelow(cues: seq<Cue>, n: nat): seq<nat>
    requires n <= |cues|
  {
    if n == 0 then [] else KeptBelow(cues, n - 1) + if cues[n - 1].drop then [] else [n - 1]
  }

  function StartAt(cues: seq<Cue>, i: nat): int { if i < |cues| then cues[i].start else 0 }

  /** The cues that are not dropped, in start order, equal starts in file order. */
  function KeptInStartOrder(cues: seq<Cue>): seq<nat> {
    Sorting.StableSort(KeptBelow(cues, |cues|), (i: nat, j: nat) => StartAt(cues, i) <= StartAt(cues, j))
  }

  /** i plays before j: an earlier start, or the same start and an earlier place in the file. */
  predicate PlaysBefore(cues: seq<Cue>, i: nat, j: nat) {
    i < |cues| && j < |cues| &&
    (cues[i].start < cues[j].start || (cues[i].start == cues[j].start && i < j))
  }

  lemma {:induction false} KeptBelowFacts(cues: seq<Cue>, n: nat)
    requires n <= |cues|
    ensures forall i: nat :: i in KeptBelow(cues, n) <==> i < n && !cues[i].drop
    ensures Increasing(KeptBelow(cues, n)) && |KeptBelow(cues, n)| <= n
  {
    if n > 0 {
      KeptBelowFacts(cues, n - 1);
      var before := KeptBelow(cues, n - 1);
      assert forall j | 0 <= j < |before| :: before[j] in before;
    }
  }

  /** The order lists exactly the kept cues, each once, in stable start order. */
  ghost predicate IsStartOrder(cues: seq<Cue>, order: seq<nat>) {
    && |order| <= |cues|
    && (forall i: nat :: i in order <==> i < |cues| && !cues[i].drop)
    && (forall a, b | 0 <= a < b < |order| :: PlaysBefore(cues, order[a], order[b]))
  }

  lemma StartOrderFacts(cues: seq<Cue>)
    ensures IsStartOrder(cues, KeptInStartOrder(cues))
  {
    var kept := KeptBelow(cues, |cues|);
    var le := (i: nat, j: nat) => StartAt(cues, i) <= StartAt(cues, j);
    var less := (i: nat, j: nat) => i < j;
    KeptBelowFacts(cues, |cues|);
    SortedPlays(cues, kept, le, less);
  }

  lemma SortedPlays(cues: seq<Cue>, kept: seq<nat>, le: (nat, nat) -> bool, less: (nat, nat) -> bool)
    requires forall i, j :: le(i, j) <==> StartAt(cues, i) <= StartAt(cues, j)
    requires forall i, j :: less(i, j) <==> i < j
    requires Increasing(kept) && |kept| <= |cues| && forall i: nat :: i in kept <==> i < |cues| && !cues[i].drop
    ensures IsStartOrder(cues, Sorting.StableSort(kept, le))
  {
    hide Sorting.StableSort;
    Sorting.SortKeepsElements(kept, le);
    Sorting.SortInOrder(kept, le, less);
    var order := Sorting.StableSort(kept, le);
    forall a, b | 0 <= a < b < |order| ensures PlaysBefore(cues, order[a], order[b]) {
      assert order[a] in order && order[b] in order;
      assert Sorting.Before(order[a], order[b], le, less);
    }
  }

  // ---- one record --------------------------------------------------------

  function NonBlank(lines: seq<string>): seq<string> {
    if lines == [] then [] else (if Blank(lines[0]) then [] else [lines[0]]) + NonBlank(lines[1..])
  }

  function CueLines(lines: seq<string>, block: CueBlock): seq<string>
    requires block.start <= block.end <= |lines|
  {
    NonBlank(lines[block.start..block.end])
  }

  function TagCount(record: seq<string>, tag: string): nat
    requires tag != ""
  {
    Count(Lower(Join(record, "\n")), tag)
  }

  /** Opened italics minus closed ones. */
  function Balance(record: seq<string>): int {
    TagCount(record, "<i>") - TagCount(record, "</i>")
  }

  function Repeat(s: string, n: int): string {
    if n <= 0 then "" else s + Repeat(s, n - 1)
  }

  function MissingItalics(record: seq<string>): string { Repeat("</i>", Balance(record)) }

  predicate HasUnclosedItalics(lines: seq<string>, blocks: seq<CueBlock>)
    requires forall k | 0 <= k < |blocks| :: blocks[k].start <= blocks[k].end <= |lines|
  {
    exists k | 0 <= k < |blocks| :: MissingItalics(lines[blocks[k].start..blocks[k].end]) != ""
  }

  /** Record k with its blank lines removed and its times rewritten if asked. */
  function Timed(job: Job, k: nat): Option<seq<string>>
    requires k < |job.blocks| == |job.cues| && job.blocks[k].start <= job.blocks[k].timing < job.blocks[k].end <= |job.lines|
  {
    var record := CueLines(job.lines, job.blocks[k]);
    var offset := job.blocks[k].timing - job.blocks[k].start;
    if !job.cues[k].retime then Some(record)
    else if offset >= |record| then None
    else match TimingLine.Retimed(record[offset], job.cues[k].start, job.cues[k].end)
      case None => None
      case Some(line) => Some(record[offset := line])
  }

  /** The record with the italics it leaves open closed at its end. */
  function Closed(record: seq<string>): seq<string> {
    if record == [] then [] else record[|record| - 1 := record[|record| - 1] + MissingItalics(record)]
  }

  /** Record k as written at position i of the output. */
  function Record(job: Job, k: nat, i: nat): Option<seq<string>>
    requires k < |job.blocks| == |job.cues| && job.blocks[k].start <= job.blocks[k].timing < job.blocks[k].end <= |job.lines|
  {
    match Timed(job, k)
    case None => None
    case Some(timed) =>
      var record := if job.close then Closed(timed) else timed;
      if job.Indexed(k) && record != [] then Some(record[0 := Itoa(i + 1)]) else Some(record)
  }

  /** The lines between record i - 1 and record i, which stay where they are. */
  function Gap(job: Job, i: nat): seq<string>
    requires 0 < i < |job.blocks| && job.blocks[i - 1].end <= job.blocks[i].start <= |job.lines|
  {
    var gap := job.lines[job.blocks[i - 1].end..job.blocks[i].start];
    if gap == [] then [""] else gap
  }

  ghost predicate WellPlaced(job: Job) {
    && |job.blocks| == |job.cues| > 0
    && (forall k | 0 <= k < |job.blocks| ::
          job.blocks[k].start <= job.blocks[k].timing < job.blocks[k].end <= Limit(job.lines, job.blocks, k) <= |job.lines|)
  }

  lemma ValidIsWellPlaced(job: Job)
    requires job.Valid()
    ensures WellPlaced(job)
  {
    hide IsCueList;
    forall k | 0 <= k < |job.blocks|
      ensures job.blocks[k].start <= job.blocks[k].timing < job.blocks[k].end <= Limit(job.lines, job.blocks, k) <= |job.lines|
    {
      BlockShape(job.lines, job.Vtt(), job.blocks, k);
    }
  }

  // ---- the whole rewrite -------------------------------------------------

  /** The output after n records. */
  function Output(job: Job, order: seq<nat>, n: nat): Option<seq<string>>
    requires WellPlaced(job) && n <= |order| <= |job.blocks| && forall k | k in order :: k < |job.blocks|
  {
    if n == 0 then Some(job.lines[..job.blocks[0].start])
    else match Output(job, order, n - 1)
      case None => None
      case Some(before) =>
        assert order[n - 1] in order;
        match Record(job, order[n - 1], n - 1)
        case None => None
        case Some(record) => Some((if n > 1 then before + Gap(job, n - 1) else before) + record)
  }

  function Tail(job: Job, order: seq<nat>): seq<string>
    requires WellPlaced(job)
  {
    if order == [] then [] else job.lines[job.blocks[|job.blocks| - 1].end..]
  }

  function RewriteBlocks(job: Job): (r: Outcome)
    requires WellPlaced(job)
    ensures r != Unchanged
  {
    var order := KeptInStartOrder(job.cues);
    StartOrderFacts(job.cues);
    match Output(job, order, |order|)
    case None => Unsafe
    case Some(out) => Rewritten(out + Tail(job, order))
  }

  predicate InStartOrder(cues: seq<Cue>) {
    forall i | 1 <= i < |cues| :: cues[i - 1].start <= cues[i].start
  }

  predicate HasEdits(cues: seq<Cue>) {
    exists i | 0 <= i < |cues| :: cues[i].retime || cues[i].drop
  }

  /** What a rewrite makes of lines whose cues are blocks. */
  ghost function Rewrite(job: Job): Outcome
    requires IsCueList(job.lines, job.Vtt(), job.blocks)
  {
    BlocksInRange(job);
    if InStartOrder(job.cues) && !HasEdits(job.cues) && (!job.close || !HasUnclosedItalics(job.lines, job.blocks)) then Unchanged
    else if Ambiguous(job.lines, job.Vtt(), job.blocks) || |job.blocks| != |job.cues| then Unsafe
    else
      NothingToDo(job);
      ValidIsWellPlaced(job);
      RewriteBlocks(job)
  }

  lemma BlocksInRange(job: Job)
    requires IsCueList(job.lines, job.Vtt(), job.blocks)
    ensures forall k | 0 <= k < |job.blocks| :: job.blocks[k].start <= job.blocks[k].end <= |job.lines|
  {
    hide IsCueList;
    forall k | 0 <= k < |job.blocks| ensures job.blocks[k].start <= job.blocks[k].end <= |job.lines| {
      BlockShape(job.lines, job.Vtt(), job.blocks, k);
    }
  }

  /** Without records there is nothing to rewrite. */
  lemma NothingToDo(job: Job)
    requires IsCueList(job.lines, job.Vtt(), job.blocks) && |job.blocks| == |job.cues|
    requires forall k | 0 <= k < |job.blocks| :: job.blocks[k].start <= job.blocks[k].end <= |job.lines|
    requires !(InStartOrder(job.cues) && !HasEdits(job.cues) && (!job.close || !HasUnclosedItalics(job.lines, job.blocks)))
    ensures job.Valid()
  {
    hide IsCueList;
    assert job.blocks == [] ==> job.cues == [];
  }

  // ---- when nothing changes and when it is not safe ----------------------

  /** Each cue starts no later than any after it, and none is to be retimed or
      dropped. */
  ghost predicate CuesRight(cues: seq<Cue>) {
    && (forall i, j | 0 <= i < j < |cues| :: cues[i].start <= cues[j].start)
    && (forall i | 0 <= i < |cues| :: !cues[i].retime && !cues[i].drop)
  }

  /** The cues are right, and no record has italics left to close. */
  ghost predicate AlreadyRight(lines: seq<string>, cues: seq<Cue>, close: bool, blocks: seq<CueBlock>)
    requires forall k | 0 <= k < |blocks| :: blocks[k].start <= blocks[k].end <= |lines|
  {
    && CuesRight(cues)
    && (close ==> forall k | 0 <= k < |blocks| :: Balance(lines[blocks[k].start..blocks[k].end]) <= 0)
  }

  /** Renumbering would overwrite a line that is text: with no blank line before
      it, and no number or the only text of the cue before. */
  ghost predicate TakesText(lines: seq<string>, block: CueBlock) {
    && block.start < block.timing && 2 <= block.timing <= |lines|
    && !Blank(lines[block.timing - 2])
    && (IsNumber(TrimSpace(lines[block.timing - 1])) ==> Contains(TrimSpace(lines[block.timing - 2]), "-->"))
  }

  /** The records do not match the cues, one would lose a line of text, or the
      times of a kept cue cannot be rewritten. */
  ghost predicate CannotRewrite(lines: seq<string>, vtt: bool, cues: seq<Cue>, blocks: seq<CueBlock>)
    requires forall k | 0 <= k < |blocks| :: blocks[k].timing < |lines|
  {
    || |blocks| != |cues|
    || (!vtt && exists k | 0 <= k < |blocks| :: TakesText(lines, blocks[k]))
    || exists k | 0 <= k < |cues| :: cues[k].retime && !cues[k].drop && TimingLine.MatchTiming(lines[blocks[k].timing]).None?
  }

  /** Which outcome a rewrite has, from its lines, records and cues alone. */
  ghost predicate Outcomes(lines: seq<string>, vtt: bool, cues: seq<Cue>, close: bool, blocks: seq<CueBlock>, r: Outcome) {
    && (forall k | 0 <= k < |blocks| :: blocks[k].start <= blocks[k].timing < blocks[k].end <= |lines|)
    && (r == Unchanged <==> AlreadyRight(lines, cues, close, blocks))
    && (r == Unsafe <==> !AlreadyRight(lines, cues, close, blocks) && CannotRewrite(lines, vtt, cues, blocks))
  }

  lemma OutcomesExactly(job: Job)
    requires IsCueList(job.lines, job.Vtt(), job.blocks)
    ensures Outcomes(job.lines, job.Vtt(), job.cues, job.close, job.blocks, Rewrite(job))
  {
    hide IsCueList, RewriteBlocks, Ambiguous, Balance, Repeat;
    forall k | 0 <= k < |job.blocks| ensures job.blocks[k].start <= job.blocks[k].timing < job.blocks[k].end <= |job.lines| {
      BlockShape(job.lines, job.Vtt(), job.blocks, k);
    }
    BlocksInRange(job);
    RightCues(job.cues);
    forall k | 0 <= k < |job.blocks|
      ensures MissingItalics(job.lines[job.blocks[k].start..job.blocks[k].end]) != "" <==> Balance(job.lines[job.blocks[k].start..job.blocks[k].end]) > 0
    {
      RepeatIsEmpty(Balance(job.lines[job.blocks[k].start..job.blocks[k].end]));
    }
    assert AlreadyRight(job.lines, job.cues, job.close, job.blocks) <==>
           InStartOrder(job.cues) && !HasEdits(job.cues) && (!job.close || !HasUnclosedItalics(job.lines, job.blocks));
    AmbiguousExactly(job.lines, job.Vtt(), job.blocks);
    if !AlreadyRight(job.lines, job.cues, job.close, job.blocks) && |job.blocks| == |job.cues| {
      NothingToDo(job);
      ValidIsWellPlaced(job);
      BlocksFailExactly(job);
    }
  }

  lemma RepeatIsEmpty(n: int)
    ensures Repeat("</i>", n) == "" <==> n <= 0
  {
  }

  lemma RightCues(cues: seq<Cue>)
    ensures CuesRight(cues) <==> InStartOrder(cues) && !HasEdits(cues)
  {
    Ordered(cues, |cues|);
  }

  lemma {:induction false} Ordered(cues: seq<Cue>, n: nat)
    requires n <= |cues|
    ensures (forall i | 1 <= i < n :: cues[i - 1].start <= cues[i].start) <==> (forall i, j | 0 <= i < j < n :: cues[i].start <= cues[j].start)
  {
    if n > 1 {
      Ordered(cues, n - 1);
      if forall i | 1 <= i < n :: cues[i - 1].start <= cues[i].start {
        forall i, j | 0 <= i < j < n ensures cues[i].start <= cues[j].start {
          assert cues[n - 2].start <= cues[n - 1].start;
        }
      }
    }
  }

  lemma AmbiguousExactly(lines: seq<string>, vtt: bool, blocks: seq<CueBlock>)
    requires forall k | 0 <= k < |blocks| :: blocks[k].timing < |lines|
    ensures Ambiguous(lines, vtt, blocks) <==> !vtt && exists k | 0 <= k < |blocks| :: TakesText(lines, blocks[k])
  {
    hide Blank, IsNumber, TrimSpace, Contains;
    forall k | 0 <= k < |blocks| ensures IndexIsText(lines, blocks[k]) <==> TakesText(lines, blocks[k]) {
    }
  }

  /** A record cannot be written exactly if its cue is to be retimed and its
      timing line does not match. */
  lemma RecordFailsExactly(job: Job, k: nat, i: nat)
    requires job.Valid() && WellPlaced(job) && k < |job.blocks|
    ensures Record(job, k, i).None? <==> job.cues[k].retime && TimingLine.MatchTiming(job.lines[job.blocks[k].timing]).None?
  {
    hide IsCueList, Balance, Repeat, Itoa, TimingLine.MatchTiming, IsTimingLine, Blank, NonBlank;
    var b := job.blocks[k];
    var raw := job.lines[b.start..b.end];
    var offset := b.timing - b.start;
    BlockShape(job.lines, job.Vtt(), job.blocks, k);
    TimingsAscend(job.lines, job.Vtt(), job.blocks, k);
    TimingIsText(job.lines[b.timing], job.Vtt());
    assert raw[offset] == job.lines[b.timing] && raw[0] == job.lines[b.start];
    TextStays(raw, offset);
  }

  lemma TimingIsText(line: string, vtt: bool)
    requires IsTimingLine(line, vtt)
    ensures !Blank(line)
  {
  }

  /** The first lines of a record stay in place when they are not blank. */
  lemma TextStays(raw: seq<string>, offset: nat)
    requires offset <= 1 && offset < |raw| && !Blank(raw[0]) && !Blank(raw[offset])
    ensures offset < |NonBlank(raw)| && NonBlank(raw)[offset] == raw[offset]
  {
    hide Blank;
    assert raw == [raw[0]] + raw[1..];
    assert offset == 1 ==> raw[1..][0] == raw[1];
  }

  lemma BlocksFailExactly(job: Job)
    requires job.Valid() && WellPlaced(job)
    ensures RewriteBlocks(job) == Unsafe <==>
              exists k | 0 <= k < |job.cues| :: job.cues[k].retime && !job.cues[k].drop && TimingLine.MatchTiming(job.lines[job.blocks[k].timing]).None?
  {
    hide IsCueList, Record, Gap, KeptInStartOrder, TimingLine.MatchTiming;
    var order := KeptInStartOrder(job.cues);
    StartOrderFacts(job.cues);
    OutputFailsExactly(job, order, |order|);
    forall i | 0 <= i < |order| ensures order[i] in order &&
      (Record(job, order[i], i).None? <==> job.cues[order[i]].retime && TimingLine.MatchTiming(job.lines[job.blocks[order[i]].timing]).None?)
    {
      assert order[i] in order;
      RecordFailsExactly(job, order[i], i);
    }
    if k: nat :| k < |job.cues| && job.cues[k].retime && !job.cues[k].drop && TimingLine.MatchTiming(job.lines[job.blocks[k].timing]).None? {
      assert k in order;
      var i :| 0 <= i < |order| && order[i] == k;
      assert Record(job, order[i], i).None?;
    }
  }

  lemma {:induction false} OutputFailsExactly(job: Job, order: seq<nat>, n: nat)
    requires WellPlaced(job) && n <= |order| <= |job.blocks| && forall k | k in order :: k < |job.blocks|
    ensures Output(job, order, n).None? <==> exists i | 0 <= i < n :: order[i] in order && Record(job, order[i], i).None?
  {
    hide Record, Gap;
    if n > 0 {
      OutputFailsExactly(job, order, n - 1);
      assert order[n - 1] in order;
    }
  }

  /** Rewrites lines, or reports that nothing changes or that it is not safe. */
  method Repair(lines: seq<string>, format: Format, cues: seq<Cue>, close: bool) returns (r: Outcome)
    ensures forall blocks | IsCueList(lines, format == WebVtt, blocks) :: r == Rewrite(Job(lines, format, cues, close, blocks))
    ensures forall blocks, vtt | vtt == (format == WebVtt) && IsCueList(lines, vtt, blocks) :: Outcomes(lines, vtt, cues, close, blocks, r)
    ensures r == Unchanged ==> CuesRight(cues)
    ensures CuesRight(cues) && !close ==> r == Unchanged
  {
    hide IsCueList, Record, Ambiguous, MissingItalics, KeptInStartOrder, TagCount, Outcomes, CuesRight;
    RightCues(cues);
    var edits := false;
    for i := 0 to |cues|
      invariant edits <==> HasEdits(cues[..i])
    {
      edits := edits || cues[i].retime || cues[i].drop;
      assert cues[..i + 1] == cues[..i] + [cues[i]];
    }
    assert cues[..|cues|] == cues;
    var blocks, ambiguous := FindCues(lines, format == WebVtt);
    ghost var job := Job(lines, format, cues, close, blocks);
    ghost var vtt := format == WebVtt;
    forall other | IsCueList(lines, vtt, other) ensures other == blocks {
      CueListUnique(lines, vtt, other, blocks);
    }
    BlocksInRange(job);
    OutcomesExactly(job);
    if InStartOrder(cues) && !edits && (!close || !HasUnclosedItalics(lines, blocks)) {
      return Unchanged;
    }
    if ambiguous || |blocks| != |cues| {
      return Unsafe;
    }
    NothingToDo(job);
    ValidIsWellPlaced(job);
    r := WriteRecords(Job(lines, format, cues, close, blocks));
  }

  method WriteRecords(job: Job) returns (r: Outcome)
    requires WellPlaced(job)
    ensures r == RewriteBlocks(job)
  {
    hide Record, KeptInStartOrder;
    var order := KeptInStartOrder(job.cues);
    StartOrderFacts(job.cues);
    var output := job.lines[..job.blocks[0].start];
    var i := 0;
    while i < |job.blocks| && i < |order|
      invariant 0 <= i <= |order|
      invariant Output(job, order, i) == Some(output)
    {
      assert order[i] in order;
      if i > 0 {
        output := output + Gap(job, i);
      }
      match Record(job, order[i], i) {
        case None =>
          OutputFails(job, order, i + 1);
          return Unsafe;
        case Some(record) =>
          output := output + record;
      }
      i := i + 1;
    }
    r := Rewritten(output + Tail(job, order));
  }

  lemma {:induction false} OutputFails(job: Job, order: seq<nat>, n: nat)
    requires WellPlaced(job) && n <= |order| <= |job.blocks| && forall k | k in order :: k < |job.blocks|
    requires Output(job, order, n).None?
    ensures Output(job, order, |order|).None?
    decreases |order| - n
  {
    hide Record, Gap;
    if n < |order| {
      OutputFails(job, order, n + 1);
    }
  }
}
