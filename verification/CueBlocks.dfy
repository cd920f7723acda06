/** Locating the cues of an SRT or WebVTT file in its raw lines, the way the
    subtitle parser reads them (internal/subtitleorder/order.go). */
module CueBlocks {
  import opened Text

  const ARROW := "-->"

  /** One cue: its first line (index or identifier, or the timing line when
      there is none), its timing line, and the line after its last text line. */
  datatype CueBlock = CueBlock(start: nat, timing: nat, end: nat)

  predicate IsTimingLine(line: string, vtt: bool) {
    var trimmed := TrimSpace(line);
    !(vtt && ("NOTE " <= trimmed || "Region: " <= trimmed || "STYLE" <= trimmed)) && Contains(trimmed, ARROW)
  }

  function FieldEnd(s: string): nat
    ensures FieldEnd(s) <= |s|
  {
    if s == "" || IsSpace(s[0]) then 0 else 1 + FieldEnd(s[1..])
  }

  predicate IsHeader(line: string) {
    var trimmed := TrimLeft(line);
    trimmed[..FieldEnd(trimmed)] == "WEBVTT"
  }

  /** The line after the WEBVTT header, or 0 without one. */
  function AfterHeader(lines: seq<string>, i: nat): (first: nat)
    requires i <= |lines|
    ensures first <= |lines|
    decreases |lines| - i
  {
    if i == |lines| then 0
    else if IsHeader(lines[i]) then i + 1
    else AfterHeader(lines, i + 1)
  }

  function FirstLine(lines: seq<string>, vtt: bool): (first: nat)
    ensures first <= |lines|
  {
    if vtt then AfterHeader(lines, 0) else 0
  }

  /** The timing lines among lines[first..to], in file order. */
  function Timings(lines: seq<string>, vtt: bool, first: nat, to: nat): seq<nat>
    requires to <= |lines|
  {
    if to <= first then []
    else Timings(lines, vtt, first, to - 1) + if IsTimingLine(lines[to - 1], vtt) then [to - 1] else []
  }

  function TimingsOf(blocks: seq<CueBlock>): (r: seq<nat>)
    ensures |r| == |blocks| && forall k | 0 <= k < |blocks| :: r[k] == blocks[k].timing
  {
    seq(|blocks|, k requires 0 <= k < |blocks| => blocks[k].timing)
  }

  /** No line of the record, or a blank one, stands two lines before the timing line. */
  predicate Separated(lines: seq<string>, first: nat, timing: nat)
    requires timing <= |lines|
  {
    timing < first + 2 || Blank(lines[timing - 2])
  }

  function StartOf(lines: seq<string>, vtt: bool, first: nat, previous: int, timing: nat): (start: nat)
    requires timing < |lines|
    ensures start == timing || (start == timing - 1 > previous && !Blank(lines[start]))
  {
    if timing > 0 && timing - 1 > previous && !Blank(lines[timing - 1]) then
      if !vtt || (timing - 2 > previous && Separated(lines, first, timing)) then timing - 1 else timing
    else timing
  }

  /** lines[from..end] is the text of a cue that may reach up to limit. */
  ghost predicate IsTextEnd(lines: seq<string>, vtt: bool, from: nat, limit: nat, end: nat)
    requires limit <= |lines|
  {
    && from <= end <= limit
    && (if vtt then
          (forall l | from <= l < end :: !Blank(lines[l])) && (end < limit ==> Blank(lines[end]))
        else
          (forall l | end <= l < limit :: Blank(lines[l])) && (from < end ==> !Blank(lines[end - 1])))
  }

  function Previous(first: nat, blocks: seq<CueBlock>, k: nat): int
    requires k <= |blocks|
  {
    if k == 0 then first - 1 else blocks[k - 1].timing
  }

  function Limit(lines: seq<string>, blocks: seq<CueBlock>, k: nat): nat
    requires k < |blocks|
  {
    if k + 1 < |blocks| then blocks[k + 1].start else |lines|
  }

  ghost predicate StartsRight(lines: seq<string>, vtt: bool, blocks: seq<CueBlock>, k: nat)
    requires k < |blocks|
  {
    var first := FirstLine(lines, vtt);
    blocks[k].timing < |lines| &&
    blocks[k].start == StartOf(lines, vtt, first, Previous(first, blocks, k), blocks[k].timing)
  }

  ghost predicate EndsRight(lines: seq<string>, vtt: bool, blocks: seq<CueBlock>, k: nat)
    requires k < |blocks|
  {
    && Limit(lines, blocks, k) <= |lines|
    && IsTextEnd(lines, vtt, blocks[k].timing + 1, Limit(lines, blocks, k), blocks[k].end)
  }

  /** blocks are the cues of lines, in file order. */
  ghost predicate IsCueList(lines: seq<string>, vtt: bool, blocks: seq<CueBlock>) {
    && TimingsOf(blocks) == Timings(lines, vtt, FirstLine(lines, vtt), |lines|)
    && (forall k | 0 <= k < |blocks| :: StartsRight(lines, vtt, blocks, k))
    && (forall k | 0 <= k < |blocks| :: EndsRight(lines, vtt, blocks, k))
  }

  /** An SRT index line that is surely text: no blank line before it, and not a
      number or the only text of the cue before. */
  predicate IndexIsText(lines: seq<string>, block: CueBlock) {
    && block.timing <= |lines|
    && block.start < block.timing
    && !Separated(lines, 0, block.timing)
    && (!IsNumber(TrimSpace(lines[block.timing - 1])) || IsTimingLine(lines[block.timing - 2], false))
  }

  ghost predicate Ambiguous(lines: seq<string>, vtt: bool, blocks: seq<CueBlock>) {
    !vtt && exists k | 0 <= k < |blocks| :: IndexIsText(lines, blocks[k])
  }

  lemma {:induction false} TimingsMembers(lines: seq<string>, vtt: bool, first: nat, to: nat)
    requires to <= |lines|
    ensures forall i :: i in Timings(lines, vtt, first, to) <==> first <= i < to && IsTimingLine(lines[i], vtt)
    ensures Increasing(Timings(lines, vtt, first, to))
  {
    hide IsTimingLine, Blank, IsNumber;
    if to > first {
      TimingsMembers(lines, vtt, first, to - 1);
      var before := Timings(lines, vtt, first, to - 1);
      assert forall j | 0 <= j < |before| :: before[j] in before;
    }
  }

  ghost predicate Increasing(xs: seq<nat>) {
    forall j, k | 0 <= j < k < |xs| :: xs[j] < xs[k]
  }

  /** The cue list of a text is unique. */
  lemma CueListUnique(lines: seq<string>, vtt: bool, a: seq<CueBlock>, b: seq<CueBlock>)
    requires IsCueList(lines, vtt, a) && IsCueList(lines, vtt, b)
    ensures a == b
  {
    hide IsTimingLine, Blank, IsNumber;
    assert |a| == |TimingsOf(a)| == |b|;
    forall k | 0 <= k < |a| ensures a[k].timing == b[k].timing && a[k].start == b[k].start {
      assert TimingsOf(a)[k] == TimingsOf(b)[k];
      assert k > 0 ==> TimingsOf(a)[k - 1] == TimingsOf(b)[k - 1];
      assert StartsRight(lines, vtt, a, k) && StartsRight(lines, vtt, b, k);
    }
    forall k | 0 <= k < |a| ensures a[k] == b[k] {
      assert EndsRight(lines, vtt, a, k) && EndsRight(lines, vtt, b, k);
      assert Limit(lines, a, k) == Limit(lines, b, k);
      var limit := Limit(lines, a, k);
      TextEndUnique(lines, vtt, a[k].timing + 1, limit, a[k].end, b[k].end);
    }
  }

  lemma TextEndUnique(lines: seq<string>, vtt: bool, from: nat, limit: nat, e: nat, f: nat)
    requires limit <= |lines|
    requires IsTextEnd(lines, vtt, from, limit, e) && IsTextEnd(lines, vtt, from, limit, f)
    ensures e == f
  {
    hide IsTimingLine, Blank, IsNumber;
    var blankAt := (e < limit && Blank(lines[e]), f < limit && Blank(lines[f]));
    var blankBefore := (from < e && Blank(lines[e - 1]), from < f && Blank(lines[f - 1]));
  }

  lemma TimingsAscend(lines: seq<string>, vtt: bool, blocks: seq<CueBlock>, k: nat)
    requires IsCueList(lines, vtt, blocks) && k < |blocks|
    ensures FirstLine(lines, vtt) <= blocks[k].timing < |lines| && IsTimingLine(lines[blocks[k].timing], vtt)
    ensures forall j | 0 <= j < k :: blocks[j].timing < blocks[k].timing
    ensures forall j | k < j < |blocks| :: blocks[k].timing < blocks[j].timing
  {
    hide IsTimingLine, Blank, IsNumber;
    var all := Timings(lines, vtt, FirstLine(lines, vtt), |lines|);
    TimingsMembers(lines, vtt, FirstLine(lines, vtt), |lines|);
    assert all[k] == blocks[k].timing && all[k] in all;
    assert forall j | 0 <= j < |all| :: all[j] == blocks[j].timing;
  }

  lemma EveryTimingHasBlock(lines: seq<string>, vtt: bool, blocks: seq<CueBlock>, i: nat)
    requires IsCueList(lines, vtt, blocks)
    requires FirstLine(lines, vtt) <= i < |lines| && IsTimingLine(lines[i], vtt)
    ensures exists k :: 0 <= k < |blocks| && blocks[k].timing == i
  {
    hide IsTimingLine, Blank, IsNumber;
    var all := Timings(lines, vtt, FirstLine(lines, vtt), |lines|);
    TimingsMembers(lines, vtt, FirstLine(lines, vtt), |lines|);
    var k :| 0 <= k < |all| && all[k] == i;
    assert blocks[k].timing == i;
  }

  /** Where a cue's lines lie: start <= timing < end, before the next cue. */
  lemma BlockShape(lines: seq<string>, vtt: bool, blocks: seq<CueBlock>, k: nat)
    requires IsCueList(lines, vtt, blocks) && k < |blocks|
    ensures FirstLine(lines, vtt) <= blocks[k].start <= blocks[k].timing < blocks[k].end <= Limit(lines, blocks, k) <= |lines|
    ensures blocks[k].timing <= blocks[k].start + 1
    ensures blocks[k].start < blocks[k].timing ==> !Blank(lines[blocks[k].start])
    ensures k > 0 ==> blocks[k - 1].timing < blocks[k].start && blocks[k - 1].end <= blocks[k].start
    ensures !vtt ==> forall i | blocks[k].end <= i < Limit(lines, blocks, k) :: Blank(lines[i])
  {
    hide IsTimingLine, Blank, IsNumber;
    TimingsAscend(lines, vtt, blocks, k);
    assert StartsRight(lines, vtt, blocks, k) && EndsRight(lines, vtt, blocks, k);
    if k > 0 {
      TimingsAscend(lines, vtt, blocks, k - 1);
      assert EndsRight(lines, vtt, blocks, k - 1);
    }
  }

  /** Of a cue's lines only its timing line is one. */
  lemma OneTimingLine(lines: seq<string>, vtt: bool, blocks: seq<CueBlock>, k: nat, i: nat)
    requires IsCueList(lines, vtt, blocks) && k < |blocks| && blocks[k].start <= i < Limit(lines, blocks, k)
    ensures i < |lines| && (IsTimingLine(lines[i], vtt) <==> i == blocks[k].timing)
  {
    hide IsTimingLine, Blank, IsNumber;
    BlockShape(lines, vtt, blocks, k);
    TimingsAscend(lines, vtt, blocks, k);
    if IsTimingLine(lines[i], vtt) {
      EveryTimingHasBlock(lines, vtt, blocks, i);
      var j :| 0 <= j < |blocks| && blocks[j].timing == i;
      if k + 1 < |blocks| {
        BlockShape(lines, vtt, blocks, k + 1);
        TimingsAscend(lines, vtt, blocks, k + 1);
      }
      if k > 0 {
        TimingsAscend(lines, vtt, blocks, k - 1);
      }
      assert j == k;
    }
  }

  /** Lines before the first cue hold no timing line. */
  lemma NoTimingBefore(lines: seq<string>, vtt: bool, blocks: seq<CueBlock>, i: nat)
    requires IsCueList(lines, vtt, blocks)
    requires FirstLine(lines, vtt) <= i < |lines|
    requires blocks == [] || i < blocks[0].start
    ensures !IsTimingLine(lines[i], vtt)
  {
    hide IsTimingLine, Blank, IsNumber;
    if IsTimingLine(lines[i], vtt) {
      EveryTimingHasBlock(lines, vtt, blocks, i);
      BlockShape(lines, vtt, blocks, 0);
      TimingsAscend(lines, vtt, blocks, 0);
    }
  }

  /** Finds the cues of a file. */
  method FindCues(lines: seq<string>, vtt: bool) returns (blocks: seq<CueBlock>, ambiguous: bool)
    ensures IsCueList(lines, vtt, blocks)
    ensures ambiguous <==> Ambiguous(lines, vtt, blocks)
  {
    var first := 0;
    if vtt {
      var h := 0;
      while h < |lines| && !IsHeader(lines[h])
        invariant 0 <= h <= |lines|
        invariant AfterHeader(lines, 0) == AfterHeader(lines, h)
      {
        h := h + 1;
      }
      if h < |lines| {
        first := h + 1;
      }
    }
    blocks, ambiguous := FindStarts(lines, vtt, first);
    blocks := FillEnds(lines, vtt, blocks);
  }

  ghost predicate AllStartRight(lines: seq<string>, vtt: bool, blocks: seq<CueBlock>) {
    forall k | 0 <= k < |blocks| :: StartsRight(lines, vtt, blocks, k)
  }

  /** The first line of the cue timed at line i, and whether that line is surely text. */
  method ReadStart(lines: seq<string>, vtt: bool, first: nat, previous: int, i: nat) returns (start: nat, text: bool)
    requires first <= i < |lines| && previous < i && (vtt || first == 0)
    ensures start == StartOf(lines, vtt, first, previous, i)
    ensures text <==> !vtt && IndexIsText(lines, CueBlock(start, i, 0))
  {
    hide IsTimingLine, Blank, IsNumber;
    start, text := i, false;
    if i > 0 && i - 1 > previous && !Blank(lines[i - 1]) {
      var separated := i < first + 2 || Blank(lines[i - 2]);
      if vtt {
        if i - 2 > previous && separated {
          start := i - 1;
        }
      } else {
        start := i - 1;
        text := !separated && (!IsNumber(TrimSpace(lines[i - 1])) || IsTimingLine(lines[i - 2], vtt));
      }
    }
  }

  method FindStarts(lines: seq<string>, vtt: bool, first: nat) returns (blocks: seq<CueBlock>, ambiguous: bool)
    requires first == FirstLine(lines, vtt)
    ensures TimingsOf(blocks) == Timings(lines, vtt, first, |lines|)
    ensures AllStartRight(lines, vtt, blocks)
    ensures ambiguous <==> Ambiguous(lines, vtt, blocks)
  {
    hide IsTimingLine, Blank, IsNumber;
    blocks, ambiguous := [], false;
    var i := first;
    while i < |lines|
      invariant first <= i <= |lines|
      invariant TimingsOf(blocks) == Timings(lines, vtt, first, i)
      invariant AllStartRight(lines, vtt, blocks)
      invariant |blocks| > 0 ==> blocks[|blocks| - 1].timing < i
      invariant ambiguous <==> Ambiguous(lines, vtt, blocks)
    {
      if IsTimingLine(lines[i], vtt) {
        var previous := if |blocks| > 0 then blocks[|blocks| - 1].timing else first - 1;
        var start, text := ReadStart(lines, vtt, first, previous, i);
        ambiguous := ambiguous || text;
        AppendStart(lines, vtt, blocks, CueBlock(start, i, 0));
        blocks := blocks + [CueBlock(start, i, 0)];
      }
      i := i + 1;
    }
  }

  lemma AppendStart(lines: seq<string>, vtt: bool, blocks: seq<CueBlock>, block: CueBlock)
    requires AllStartRight(lines, vtt, blocks) && block.timing < |lines|
    requires block.start == StartOf(lines, vtt, FirstLine(lines, vtt), Previous(FirstLine(lines, vtt), blocks, |blocks|), block.timing)
    ensures AllStartRight(lines, vtt, blocks + [block])
    ensures TimingsOf(blocks + [block]) == TimingsOf(blocks) + [block.timing]
    ensures Ambiguous(lines, vtt, blocks + [block]) <==> Ambiguous(lines, vtt, blocks) || (!vtt && IndexIsText(lines, block))
  {
    hide IsTimingLine, Blank, IsNumber;
    var longer := blocks + [block];
    forall k | 0 <= k < |longer| ensures StartsRight(lines, vtt, longer, k) {
      if k < |blocks| {
        assert StartsRight(lines, vtt, blocks, k);
      }
    }
    assert longer[|blocks|] == block;
    assert forall k | 0 <= k < |blocks| :: longer[k] == blocks[k];
  }

  /** a and b agree but for the ends. */
  ghost predicate SameStarts(a: seq<CueBlock>, b: seq<CueBlock>) {
    |a| == |b| && forall k | 0 <= k < |a| :: a[k].start == b[k].start && a[k].timing == b[k].timing
  }

  method FillEnds(lines: seq<string>, vtt: bool, found: seq<CueBlock>) returns (blocks: seq<CueBlock>)
    requires TimingsOf(found) == Timings(lines, vtt, FirstLine(lines, vtt), |lines|)
    requires AllStartRight(lines, vtt, found)
    ensures SameStarts(blocks, found)
    ensures IsCueList(lines, vtt, blocks)
    ensures Ambiguous(lines, vtt, blocks) <==> Ambiguous(lines, vtt, found)
  {
    hide IsTimingLine, Blank, IsNumber;
    blocks := found;
    var i := 0;
    while i < |blocks|
      invariant 0 <= i <= |blocks| && SameStarts(blocks, found)
      invariant forall k | 0 <= k < i :: EndsRight(lines, vtt, blocks, k)
    {
      var limit := if i + 1 < |blocks| then blocks[i + 1].start else |lines|;
      LimitAfterTiming(lines, vtt, found, i);
      var end := TextEnd(lines, vtt, blocks[i].timing + 1, limit);
      ghost var before := blocks;
      blocks := blocks[i := blocks[i].(end := end)];
      SetEnd(lines, vtt, before, i, end, blocks);
      i := i + 1;
    }
    StartsCarryOver(lines, vtt, found, blocks);
  }

  lemma SetEnd(lines: seq<string>, vtt: bool, blocks: seq<CueBlock>, i: nat, end: nat, after: seq<CueBlock>)
    requires i < |blocks| && forall k | 0 <= k < i :: EndsRight(lines, vtt, blocks, k)
    requires Limit(lines, blocks, i) <= |lines|
    requires IsTextEnd(lines, vtt, blocks[i].timing + 1, Limit(lines, blocks, i), end)
    requires after == blocks[i := blocks[i].(end := end)]
    ensures forall k | 0 <= k <= i :: EndsRight(lines, vtt, after, k)
  {
    hide IsTimingLine, Blank, IsNumber, IsTextEnd;
    forall k | 0 <= k <= i ensures EndsRight(lines, vtt, after, k) {
      assert k < i ==> EndsRight(lines, vtt, blocks, k);
      assert Limit(lines, after, k) == Limit(lines, blocks, k);
    }
  }

  lemma StartsCarryOver(lines: seq<string>, vtt: bool, found: seq<CueBlock>, blocks: seq<CueBlock>)
    requires SameStarts(blocks, found) && AllStartRight(lines, vtt, found)
    ensures AllStartRight(lines, vtt, blocks) && TimingsOf(blocks) == TimingsOf(found)
    ensures Ambiguous(lines, vtt, blocks) <==> Ambiguous(lines, vtt, found)
  {
    hide IsTimingLine, Blank, IsNumber;
    forall k | 0 <= k < |blocks| ensures StartsRight(lines, vtt, blocks, k) {
      assert StartsRight(lines, vtt, found, k);
    }
    assert forall k | 0 <= k < |blocks| :: IndexIsText(lines, blocks[k]) <==> IndexIsText(lines, found[k]);
  }

  lemma LimitAfterTiming(lines: seq<string>, vtt: bool, blocks: seq<CueBlock>, k: nat)
    requires TimingsOf(blocks) == Timings(lines, vtt, FirstLine(lines, vtt), |lines|)
    requires AllStartRight(lines, vtt, blocks) && k < |blocks|
    ensures blocks[k].timing + 1 <= Limit(lines, blocks, k) <= |lines|
  {
    hide IsTimingLine, Blank, IsNumber;
    var all := Timings(lines, vtt, FirstLine(lines, vtt), |lines|);
    TimingsMembers(lines, vtt, FirstLine(lines, vtt), |lines|);
    assert all[k] == blocks[k].timing && StartsRight(lines, vtt, blocks, k);
    if k + 1 < |blocks| {
      assert all[k + 1] == blocks[k + 1].timing && all[k] < all[k + 1];
      assert Previous(FirstLine(lines, vtt), blocks, k + 1) == all[k];
      assert StartsRight(lines, vtt, blocks, k + 1);
    }
  }

  method TextEnd(lines: seq<string>, vtt: bool, from: nat, limit: nat) returns (end: nat)
    requires from <= limit <= |lines|
    ensures IsTextEnd(lines, vtt, from, limit, end)
  {
    hide IsTimingLine, Blank, IsNumber;
    end := from;
    for line := from to limit
      invariant from <= end <= line
      invariant vtt ==> end == line && forall l | from <= l < end :: !Blank(lines[l])
      invariant !vtt ==> (forall l | end <= l < line :: Blank(lines[l])) && (from < end ==> !Blank(lines[end - 1]))
    {
      if Blank(lines[line]) {
        if vtt {
          break;
        }
        continue;
      }
      end := line + 1;
    }
  }
}
