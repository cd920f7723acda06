/** Planning timing repairs: which cues to drop, which to retime and to what
    (internal/pack/repair.go, planRepairs), and what the planned cues promise
    to the checks that follow. Times are nanoseconds. */
module RepairPlan {
  import opened Text
  import opened SubtitleRewrite
  import CueBlocks
  import OverlapSweep
  import Sorting

  const MILLISECOND := 1_000_000
  const SECOND := 1000 * MILLISECOND
  const TYPO_DISORDER := 10 * SECOND
  const MISTYPED_END := 15 * SECOND

  /** A parsed cue; heldApart tells lyrics, all-italic and positioned cues. */
  datatype Item = Item(start: int, end: int, text: string, heldApart: bool)

  datatype Plan = Planned(cues: seq<Cue>) | TwoSubtitles

  function Fields(s: string): seq<string>
    decreases |s|
  {
    var t := TrimLeft(s);
    TrimLeftShorter(s);
    TrimLeftStops(s);
    if t == "" then [] else [t[..CueBlocks.FieldEnd(t)]] + Fields(t[CueBlocks.FieldEnd(t)..])
  }

  lemma {:induction false} TrimLeftShorter(s: string)
    ensures |TrimLeft(s)| <= |s|
  {
    if s != "" && IsSpace(s[0]) {
      TrimLeftShorter(s[1..]);
    }
  }

  function Min(a: int, b: int): int { if a <= b then a else b }

  function Max(a: int, b: int): int { if a >= b then a else b }

  /** Fifty milliseconds a character after a one-second base, at most seven seconds. */
  function ReadingTime(text: string): (t: int)
    ensures SECOND <= t <= 7 * SECOND
  {
    Min(SECOND + |Join(Fields(text), " ")| * 50 * MILLISECOND, 7 * SECOND)
  }

  /** The first pass: cues so far, the cues seen, and the cue that set the
      furthest start. */
  datatype Scan = Scan(cues: seq<Cue>, seen: set<(int, int, string)>, leader: Option<nat>, latest: int)

  predicate MistypedStart(s: Scan, item: Item, text: string, ass: bool)
    requires s.leader.Some? ==> s.leader.value < |s.cues|
  {
    && !ass && s.leader.Some?
    && item.start < s.latest - TYPO_DISORDER
    && s.latest <= item.end <= s.latest + TYPO_DISORDER
    && s.cues[s.leader.value].end < item.end
    && item.end - s.cues[s.leader.value].end >= ReadingTime(text)
  }

  function ScanItem(s: Scan, item: Item, ass: bool): Scan
    requires s.leader.Some? ==> s.leader.value < |s.cues|
  {
    var text := TrimSpace(item.text);
    var key := (item.start, item.end, text);
    if text == "" || (!ass && key in s.seen) then
      s.(cues := s.cues + [Cue(item.start, item.end, false, true)])
    else
      var cue := if MistypedStart(s, item, text, ass)
                 then Cue(s.cues[s.leader.value].end, item.end, true, false)
                 else Cue(item.start, item.end, false, false);
      var leads := s.leader.None? || cue.start >= s.latest;
      Scan(s.cues + [cue], s.seen + {key}, if leads then Some(|s.cues|) else s.leader, if leads then cue.start else s.latest)
  }

  function ScanAll(items: seq<Item>, ass: bool, n: nat): (s: Scan)
    requires n <= |items|
    ensures |s.cues| == n && (s.leader.Some? ==> s.leader.value < n)
  {
    if n == 0 then Scan([], {}, None, 0) else ScanItem(ScanAll(items, ass, n - 1), items[n - 1], ass)
  }

  function KeptStarts(cues: seq<Cue>): seq<int> {
    if cues == [] then []
    else KeptStarts(cues[..|cues| - 1]) + if cues[|cues| - 1].drop then [] else [cues[|cues| - 1].start]
  }

  function SortedStarts(cues: seq<Cue>): seq<int> {
    Sorting.StableSort(KeptStarts(cues), (a: int, b: int) => a <= b)
  }

  /** The first start after the given one. */
  function NextAfter(starts: seq<int>, start: int): Option<int> {
    if starts == [] then None else if starts[0] > start then Some(starts[0]) else NextAfter(starts[1..], start)
  }

  /** The second pass: the end of one kept cue. */
  function FixEnd(cue: Cue, item: Item, starts: seq<int>, ass: bool): Cue {
    var reading := ReadingTime(TrimSpace(item.text));
    var next := NextAfter(starts, cue.start);
    if cue.drop then cue
    else if cue.end < cue.start then
      var end := cue.start + reading;
      cue.(end := if next.Some? && next.value < end then Max(next.value, cue.start + 500 * MILLISECOND) else end, retime := true)
    else if next.Some? && !ass && cue.end > next.value + TYPO_DISORDER && cue.end - cue.start > 3 * reading
            && cue.end - cue.start > MISTYPED_END && !item.heldApart then
      cue.(end := Max(next.value, cue.start + reading), retime := true)
    else cue
  }

  function PlannedCues(items: seq<Item>, ass: bool): (cues: seq<Cue>)
    ensures |cues| == |items|
  {
    var scanned := ScanAll(items, ass, |items|).cues;
    var starts := SortedStarts(scanned);
    seq(|items|, i requires 0 <= i < |items| => FixEnd(scanned[i], items[i], starts, ass))
  }

  // ---- what planned cues promise -----------------------------------------

  ghost predicate NonNegative(items: seq<Item>) {
    forall i | 0 <= i < |items| :: items[i].start >= 0 && items[i].end >= 0
  }

  /** A scanned cue keeps its end; its start moves only forward, to the end of
      an earlier cue, and leaves at least the reading time. */
  ghost predicate ScannedFrom(cue: Cue, item: Item, ass: bool) {
    && cue.end == item.end
    && (!cue.retime ==> cue.start == item.start)
    && (cue.retime ==> !ass && !cue.drop && cue.start + ReadingTime(TrimSpace(item.text)) <= cue.end)
  }

  lemma {:induction false} ScanKeeps(items: seq<Item>, ass: bool, n: nat)
    requires n <= |items|
    ensures var s := ScanAll(items, ass, n);
            && (forall i | 0 <= i < n :: ScannedFrom(s.cues[i], items[i], ass))
            && (NonNegative(items) ==> forall i | 0 <= i < n :: s.cues[i].start >= 0)
            && Leads(s)
  {
    hide ReadingTime, TrimSpace;
    if n > 0 {
      ScanKeeps(items, ass, n - 1);
      LeadsOn(ScanAll(items, ass, n - 1), items[n - 1], ass);
      hide Leads;
    }
  }

  /** The leader is the kept cue that starts last. */
  ghost predicate Leads(s: Scan) {
    && (s.leader.Some? ==> s.leader.value < |s.cues| && !s.cues[s.leader.value].drop && s.cues[s.leader.value].start == s.latest)
    && (forall i | 0 <= i < |s.cues| && !s.cues[i].drop :: s.leader.Some? && s.cues[i].start <= s.latest)
  }

  lemma LeadsOn(s: Scan, item: Item, ass: bool)
    requires Leads(s)
    ensures Leads(ScanItem(s, item, ass))
  {
    hide MistypedStart, TrimSpace;
    var after := ScanItem(s, item, ass);
    assert forall i | 0 <= i < |s.cues| :: after.cues[i] == s.cues[i];
  }

  function KeyOf(item: Item): (int, int, string) { (item.start, item.end, TrimSpace(item.text)) }

  /** A kept cue among the first n has the given times and text. */
  ghost predicate KeptKey(items: seq<Item>, cues: seq<Cue>, n: nat, key: (int, int, string)) {
    exists i | 0 <= i < n && i < |items| && i < |cues| :: !cues[i].drop && KeyOf(items[i]) == key
  }

  /** Cue i is dropped exactly when it has no text or, outside ASS, repeats an
      earlier kept cue. */
  ghost predicate DropRule(items: seq<Item>, cues: seq<Cue>, ass: bool, i: nat)
    requires i < |items| && i < |cues|
  {
    cues[i].drop <==> TrimSpace(items[i].text) == "" || (!ass && KeptKey(items, cues, i, KeyOf(items[i])))
  }

  lemma KeptKeyGrows(items: seq<Item>, cues: seq<Cue>, cue: Cue, key: (int, int, string))
    requires |cues| < |items|
    ensures KeptKey(items, cues + [cue], |cues| + 1, key) <==>
            KeptKey(items, cues, |cues|, key) || (!cue.drop && KeyOf(items[|cues|]) == key)
    ensures forall n: nat | n <= |cues| :: KeptKey(items, cues + [cue], n, key) <==> KeptKey(items, cues, n, key)
  {
    hide KeyOf;
    var longer := cues + [cue];
    assert longer[|cues|] == cue;
    assert forall i | 0 <= i < |cues| :: longer[i] == cues[i];
  }

  /** seen holds the kept cues, and every cue so far obeys the drop rule. */
  ghost predicate SeenAndDropped(items: seq<Item>, ass: bool, s: Scan) {
    && |s.cues| <= |items|
    && (forall key :: key in s.seen <==> KeptKey(items, s.cues, |s.cues|, key))
    && (forall i | 0 <= i < |s.cues| :: DropRule(items, s.cues, ass, i))
  }

  lemma ScanStepDrops(items: seq<Item>, ass: bool, s: Scan)
    requires |s.cues| < |items| && SeenAndDropped(items, ass, s)
    requires s.leader.Some? ==> s.leader.value < |s.cues|
    ensures SeenAndDropped(items, ass, ScanItem(s, items[|s.cues|], ass))
  {
    hide ReadingTime, TrimSpace, KeptKey, MistypedStart;
    var n := |s.cues|;
    var after := ScanItem(s, items[n], ass);
    var cue := after.cues[n];
    assert after.cues == s.cues + [cue];
    forall key ensures key in after.seen <==> KeptKey(items, after.cues, n + 1, key) {
      KeptKeyGrows(items, s.cues, cue, key);
    }
    forall i | 0 <= i < n + 1 ensures DropRule(items, after.cues, ass, i) {
      KeptKeyGrows(items, s.cues, cue, KeyOf(items[i]));
      assert i < n ==> DropRule(items, s.cues, ass, i);
    }
  }

  /** A cue is dropped exactly when it has no text or, outside ASS, repeats an
      earlier kept cue. */
  lemma {:induction false} DropsAreRepeats(items: seq<Item>, ass: bool, n: nat)
    requires n <= |items|
    ensures SeenAndDropped(items, ass, ScanAll(items, ass, n))
  {
    hide ScanItem, KeptKey;
    if n == 0 {
      NoKeptKey(items);
    } else {
      DropsAreRepeats(items, ass, n - 1);
      ScanStepDrops(items, ass, ScanAll(items, ass, n - 1));
    }
  }

  lemma NoKeptKey(items: seq<Item>)
    ensures forall key :: !KeptKey(items, [], 0, key)
  {
  }

  lemma {:induction false} NextAfterFacts(starts: seq<int>, start: int)
    requires forall i, j | 0 <= i < j < |starts| :: starts[i] <= starts[j]
    ensures var next := NextAfter(starts, start);
            && (next.None? ==> forall s | s in starts :: s <= start)
            && (next.Some? ==> next.value in starts && next.value > start && forall s | s in starts && s > start :: next.value <= s)
  {
    if starts != [] {
      assert starts == [starts[0]] + starts[1..];
      if starts[0] <= start {
        NextAfterFacts(starts[1..], start);
      } else {
        forall s | s in starts ensures starts[0] <= s {
          var i :| 0 <= i < |starts| && starts[i] == s;
        }
      }
    }
  }

  lemma StartsSorted(cues: seq<Cue>)
    ensures forall i, j | 0 <= i < j < |SortedStarts(cues)| :: SortedStarts(cues)[i] <= SortedStarts(cues)[j]
  {
    var le := (a: int, b: int) => a <= b;
    assert Sorting.TotalPreorder(le);
    Sorting.SortIsSorted(KeptStarts(cues), le);
  }

  /** What a repair may do to one kept cue. */
  ghost predicate Playable(cue: Cue, item: Item) {
    && 0 <= cue.start <= cue.end
    && (!cue.retime ==> cue.start == item.start && cue.end == item.end)
  }

  /** Every kept cue is playable, and only a retimed cue changes its times. */
  lemma PlannedCuesPlay(items: seq<Item>, ass: bool)
    requires NonNegative(items)
    ensures forall i | 0 <= i < |items| && !PlannedCues(items, ass)[i].drop :: Playable(PlannedCues(items, ass)[i], items[i])
  {
    hide ReadingTime, TrimSpace, NextAfter, SortedStarts;
    ScanKeeps(items, ass, |items|);
    var scanned := ScanAll(items, ass, |items|).cues;
    forall i | 0 <= i < |items| && !PlannedCues(items, ass)[i].drop ensures Playable(PlannedCues(items, ass)[i], items[i]) {
      assert ScannedFrom(scanned[i], items[i], ass);
    }
  }

  // ---- what is planned, cue by cue ---------------------------------------

  /** Of the kept cues before place n, cue j is the last with the furthest
      start. */
  ghost predicate IsLeader(cues: seq<Cue>, j: nat, n: nat) {
    && j < n <= |cues| && !cues[j].drop
    && (forall k | 0 <= k < n && !cues[k].drop :: cues[k].start <= cues[j].start)
    && (forall k | j < k < n && !cues[k].drop :: cues[k].start < cues[j].start)
  }

  /** The typed start of cue i is mistyped after leader j: it lies more than ten
      seconds before the leader's start, while the end lies up to ten seconds
      after it and leaves the reading time after the leader's end. */
  ghost predicate StartMistyped(items: seq<Item>, cues: seq<Cue>, ass: bool, i: nat, j: nat)
    requires |items| == |cues| && i < |cues|
  {
    && !ass && IsLeader(cues, j, i)
    && items[i].start < cues[j].start - 10_000_000_000
    && cues[j].start <= items[i].end <= cues[j].start + 10_000_000_000
    && items[j].end < items[i].end
    && items[i].end - items[j].end >= Reading(items[i].text)
  }

  /** The reading time of a cue's text: one second and 50 ms for each character
      of its words and one between any two words, at most seven seconds. */
  function Reading(text: string): int {
    var between := if Words(text) > 1 then Words(text) - 1 else 0;
    var needed := 1_000_000_000 + 50_000_000 * (Visible(text) + between);
    if needed < 7_000_000_000 then needed else 7_000_000_000
  }

  function Visible(text: string): nat {
    if text == "" then 0 else (if IsSpace(text[0]) then 0 else 1) + Visible(text[1..])
  }

  /** The words, each counted at its last character. */
  function Words(text: string): nat {
    if text == "" then 0
    else (if !IsSpace(text[0]) && (|text| == 1 || IsSpace(text[1])) then 1 else 0) + Words(text[1..])
  }

  /** The next start after a cue: the earliest start of a kept cue after it. */
  ghost predicate IsNext(cues: seq<Cue>, start: int, next: int) {
    && next > start
    && (exists k | 0 <= k < |cues| :: !cues[k].drop && cues[k].start == next)
    && (forall k | 0 <= k < |cues| && !cues[k].drop && cues[k].start > start :: next <= cues[k].start)
  }

  /** The typed end is mistyped: more than ten seconds after the next start,
      after more than 15 seconds and three reading times. */
  ghost predicate EndMistyped(items: seq<Item>, cues: seq<Cue>, ass: bool, i: nat, next: int)
    requires |items| == |cues| && i < |cues|
  {
    && !ass && !items[i].heldApart && IsNext(cues, cues[i].start, next)
    && items[i].end > next + 10_000_000_000
    && items[i].end - cues[i].start > 3 * Reading(items[i].text)
    && items[i].end - cues[i].start > 15_000_000_000
  }

  ghost predicate StartRule(items: seq<Item>, cues: seq<Cue>, ass: bool, i: nat)
    requires |items| == |cues| && i < |cues|
  {
    && (forall j: nat | StartMistyped(items, cues, ass, i, j) :: cues[i].start == items[j].end)
    && ((forall j: nat :: !StartMistyped(items, cues, ass, i, j)) ==> cues[i].start == items[i].start)
  }

  ghost predicate EndRule(items: seq<Item>, cues: seq<Cue>, ass: bool, i: nat)
    requires |items| == |cues| && i < |cues|
  {
    var start, end, reading := cues[i].start, items[i].end, Reading(items[i].text);
    if end < start then
      && (forall next | IsNext(cues, start, next) && next < start + reading ::
            cues[i].end == if next > start + 500_000_000 then next else start + 500_000_000)
      && ((forall next | IsNext(cues, start, next) :: next >= start + reading) ==> cues[i].end == start + reading)
    else
      && (forall next | EndMistyped(items, cues, ass, i, next) :: cues[i].end == if next > start + reading then next else start + reading)
      && ((forall next :: !EndMistyped(items, cues, ass, i, next)) ==> cues[i].end == end)
  }

  /** A kept cue is retimed exactly when its start or end is repaired. */
  ghost predicate RetimeRule(items: seq<Item>, cues: seq<Cue>, ass: bool, i: nat)
    requires |items| == |cues| && i < |cues|
  {
    cues[i].retime <==> (exists j: nat :: StartMistyped(items, cues, ass, i, j)) || items[i].end < cues[i].start
                        || exists next :: EndMistyped(items, cues, ass, i, next)
  }

  /** How each kept cue's end is repaired: a cue that ends before it starts
      gets 500 ms to seven seconds; a mistyped end only moves earlier, never
      below the next start or the reading time; nothing else moves. */
  lemma EndRepairs(items: seq<Item>, ass: bool, i: nat)
    requires i < |items|
    ensures var typed := ScanAll(items, ass, |items|).cues[i];
            var cue := PlannedCues(items, ass)[i];
            && cue.start == typed.start && cue.drop == typed.drop
            && (typed.drop ==> cue == typed)
            && (!typed.drop && typed.end < typed.start ==>
                  cue.retime && 500 * MILLISECOND <= cue.end - cue.start <= 7 * SECOND)
            && (!typed.drop && typed.end >= typed.start && cue != typed ==>
                  && !ass && cue.retime && cue.end < typed.end
                  && cue.end - cue.start >= ReadingTime(TrimSpace(items[i].text))
                  && typed.end - typed.start > MISTYPED_END && !items[i].heldApart
                  && var next := NextAfter(SortedStarts(ScanAll(items, ass, |items|).cues), typed.start);
                     next.Some? && typed.end > next.value + TYPO_DISORDER && next.value <= cue.end)
  {
    hide TrimSpace, SortedStarts, Fields, Join;
    var typed := ScanAll(items, ass, |items|).cues[i];
    StartsSorted(ScanAll(items, ass, |items|).cues);
    NextAfterFacts(SortedStarts(ScanAll(items, ass, |items|).cues), typed.start);
  }

  /** The plan, cue by cue, from the parsed cues and the planned cues alone: a
      cue is dropped exactly when it has no text or, outside ASS, repeats an
      earlier kept one; a kept cue's start moves to its leader's end exactly
      when it is mistyped; an end before the start, and a mistyped end, become
      what the rules say; and nothing else moves. */
  lemma PlanRules(items: seq<Item>, ass: bool, i: nat)
    requires i < |items|
    ensures var cues := PlannedCues(items, ass);
            && DropRule(items, cues, ass, i)
            && (cues[i].drop ==> cues[i] == Cue(items[i].start, items[i].end, false, true))
            && (!cues[i].drop ==> StartRule(items, cues, ass, i) && EndRule(items, cues, ass, i) && RetimeRule(items, cues, ass, i))
  {
    hide ReadingTime, TrimSpace, SortedStarts, PlannedCues;
    var scanned, cues := ScanAll(items, ass, |items|).cues, PlannedCues(items, ass);
    PlannedStarts(items, ass);
    ScanRules(items, ass, |items|);
    assert items[..|items|] == items;
    DropsAreRepeats(items, ass, |items|);
    DropsCarryOver(items, scanned, cues, ass, i);
    assert ScanRule(items, scanned, ass, i);
    ReadingCounts(items[i].text);
    if !cues[i].drop {
      StartsCarryOver(items, scanned, cues, ass, i);
      EndsFollow(items, scanned, cues, ass, i);
    }
  }

  /** The same places are kept at the same starts. */
  ghost predicate SameStarts(scanned: seq<Cue>, cues: seq<Cue>) {
    |scanned| == |cues| && forall i | 0 <= i < |cues| :: scanned[i].start == cues[i].start && scanned[i].drop == cues[i].drop
  }

  lemma PlannedStarts(items: seq<Item>, ass: bool)
    ensures var scanned, cues := ScanAll(items, ass, |items|).cues, PlannedCues(items, ass);
            && SameStarts(scanned, cues)
            && (forall i | 0 <= i < |items| :: cues[i] == FixEnd(scanned[i], items[i], SortedStarts(scanned), ass))
  {
    hide ReadingTime, TrimSpace, SortedStarts, ScanAll;
  }

  lemma DropsCarryOver(items: seq<Item>, scanned: seq<Cue>, cues: seq<Cue>, ass: bool, i: nat)
    requires SameStarts(scanned, cues) && |items| == |cues| && i < |items| && DropRule(items, scanned, ass, i)
    ensures DropRule(items, cues, ass, i)
  {
    hide KeyOf;
    assert KeptKey(items, scanned, i, KeyOf(items[i])) <==> KeptKey(items, cues, i, KeyOf(items[i]));
  }

  lemma StartsCarryOver(items: seq<Item>, scanned: seq<Cue>, cues: seq<Cue>, ass: bool, i: nat)
    requires SameStarts(scanned, cues) && |items| == |cues| && i < |items|
    ensures forall j: nat :: StartMistyped(items, scanned, ass, i, j) <==> StartMistyped(items, cues, ass, i, j)
    ensures StartRule(items, scanned, ass, i) ==> StartRule(items, cues, ass, i)
  {
    hide Reading;
    assert forall j: nat :: IsLeader(scanned, j, i) <==> IsLeader(cues, j, i);
  }

  /** What the first pass makes of place i. */
  ghost predicate ScanRule(items: seq<Item>, cues: seq<Cue>, ass: bool, i: nat)
    requires |items| == |cues| && i < |cues|
  {
    && cues[i].end == items[i].end
    && (cues[i].drop ==> cues[i] == Cue(items[i].start, items[i].end, false, true))
    && (!cues[i].drop ==> StartRule(items, cues, ass, i) && (cues[i].retime <==> exists j: nat :: StartMistyped(items, cues, ass, i, j)))
  }

  ghost predicate LeaderKnown(s: Scan) {
    && (s.leader.Some? ==> IsLeader(s.cues, s.leader.value, |s.cues|) && s.cues[s.leader.value].start == s.latest)
    && (s.leader.None? ==> forall k | 0 <= k < |s.cues| :: s.cues[k].drop)
  }

  lemma {:induction false} ScanRules(items: seq<Item>, ass: bool, n: nat)
    requires n <= |items|
    ensures var s := ScanAll(items, ass, n);
            LeaderKnown(s) && forall i | 0 <= i < n :: ScanRule(items[..n], s.cues, ass, i)
  {
    if n > 0 {
      var before, after := ScanAll(items, ass, n - 1), ScanAll(items, ass, n);
      ScanRules(items, ass, n - 1);
      LeaderOn(before, items[n - 1], ass);
      hide ScanItem, LeaderKnown, ScanRule;
      forall i | 0 <= i < n ensures ScanRule(items[..n], after.cues, ass, i) {
        if i < n - 1 {
          EarlierStays(items[..n - 1], before.cues, items[n - 1], after.cues[n - 1], ass, i);
          CuesGrow(before, items[n - 1], ass);
          assert items[..n - 1] + [items[n - 1]] == items[..n];
        } else {
          assert items[..n] == items[..n - 1] + [items[n - 1]];
          EndsAreTyped(items, ass, n - 1);
          LastScanned(items[..n - 1], before, items[n - 1], ass);
        }
      }
    }
  }

  lemma {:induction false} EndsAreTyped(items: seq<Item>, ass: bool, n: nat)
    requires n <= |items|
    ensures forall i | 0 <= i < n :: ScanAll(items, ass, n).cues[i].end == items[i].end
  {
    hide ReadingTime, TrimSpace, MistypedStart;
    if n > 0 {
      EndsAreTyped(items, ass, n - 1);
    }
  }

  lemma CuesGrow(s: Scan, item: Item, ass: bool)
    requires s.leader.Some? ==> s.leader.value < |s.cues|
    ensures var after := ScanItem(s, item, ass); |after.cues| == |s.cues| + 1 && after.cues == s.cues + [after.cues[|s.cues|]]
  {
    hide ReadingTime, TrimSpace, MistypedStart;
  }

  lemma LeaderOn(s: Scan, item: Item, ass: bool)
    requires LeaderKnown(s)
    ensures LeaderKnown(ScanItem(s, item, ass))
  {
    hide MistypedStart, TrimSpace;
    var after := ScanItem(s, item, ass);
    assert forall k | 0 <= k < |s.cues| :: after.cues[k] == s.cues[k];
  }

  lemma LeaderIsOne(cues: seq<Cue>, j: nat, k: nat, n: nat)
    requires IsLeader(cues, j, n) && IsLeader(cues, k, n)
    ensures j == k
  {
    assert cues[j].start == cues[k].start;
  }

  lemma EarlierStays(items: seq<Item>, cues: seq<Cue>, item: Item, cue: Cue, ass: bool, i: nat)
    requires |items| == |cues| && i < |cues| && ScanRule(items, cues, ass, i)
    ensures ScanRule(items + [item], cues + [cue], ass, i)
  {
    hide Reading;
    var more, longer := items + [item], cues + [cue];
    assert forall k | 0 <= k < |cues| :: longer[k] == cues[k] && more[k] == items[k];
    assert forall j: nat :: IsLeader(longer, j, i) <==> IsLeader(cues, j, i);
    assert forall j: nat :: StartMistyped(more, longer, ass, i, j) <==> StartMistyped(items, cues, ass, i, j);
  }

  lemma LastScanned(items: seq<Item>, s: Scan, item: Item, ass: bool)
    requires LeaderKnown(s) && |s.cues| == |items|
    requires forall i | 0 <= i < |items| :: s.cues[i].end == items[i].end
    ensures ScanRule(items + [item], ScanItem(s, item, ass).cues, ass, |items|)
  {
    hide ReadingTime, Reading, TrimSpace;
    var n, more, longer := |items|, items + [item], ScanItem(s, item, ass).cues;
    CuesGrow(s, item, ass);
    ReadingCounts(item.text);
    assert forall k | 0 <= k < n :: longer[k] == s.cues[k] && more[k] == items[k];
    forall j: nat | StartMistyped(more, longer, ass, n, j) ensures s.leader == Some(j) {
      assert IsLeader(s.cues, j, n);
      assert s.leader.Some?;
      LeaderIsOne(s.cues, j, s.leader.value, n);
    }
    assert s.leader.Some? ==> IsLeader(longer, s.leader.value, n);
    if s.leader.Some? {
      assert StartMistyped(more, longer, ass, n, s.leader.value) <==> MistypedStart(s, item, TrimSpace(item.text), ass);
    }
  }

  lemma EndsFollow(items: seq<Item>, scanned: seq<Cue>, cues: seq<Cue>, ass: bool, i: nat)
    requires SameStarts(scanned, cues) && |items| == |cues| && i < |items| && !cues[i].drop
    requires cues[i] == FixEnd(scanned[i], items[i], SortedStarts(scanned), ass) && ScanRule(items, scanned, ass, i)
    requires ReadingTime(TrimSpace(items[i].text)) == Reading(items[i].text)
    ensures EndRule(items, cues, ass, i) && RetimeRule(items, cues, ass, i)
  {
    hide ReadingTime, Reading, TrimSpace, SortedStarts, StartMistyped, IsNext;
    var start := cues[i].start;
    NextFound(scanned, cues, start);
    StartsCarryOver(items, scanned, cues, ass, i);
    var next := NextAfter(SortedStarts(scanned), start);
    hide NextAfter;
    if next.Some? {
      assert EndMistyped(items, cues, ass, i, next.value) <==>
             !ass && !items[i].heldApart && items[i].end > next.value + 10_000_000_000
             && items[i].end - start > 3 * Reading(items[i].text) && items[i].end - start > 15_000_000_000;
    }
  }

  lemma ReadingCounts(text: string)
    ensures ReadingTime(TrimSpace(text)) == Reading(text)
  {
    LeftSpacesDoNotCount(text);
    RightSpacesDoNotCount(TrimLeft(text));
    FieldsCount(TrimSpace(text));
  }

  lemma {:induction false} LeftSpacesDoNotCount(s: string)
    ensures Visible(TrimLeft(s)) == Visible(s) && Words(TrimLeft(s)) == Words(s)
  {
    if s != "" && IsSpace(s[0]) {
      LeftSpacesDoNotCount(s[1..]);
    }
  }

  lemma {:induction false} RightSpacesDoNotCount(s: string)
    ensures Visible(TrimRight(s)) == Visible(s) && Words(TrimRight(s)) == Words(s)
  {
    if s != "" && IsSpace(s[|s| - 1]) {
      LastSpaceDoesNotCount(s);
      RightSpacesDoNotCount(s[..|s| - 1]);
    }
  }

  lemma {:induction false} LastSpaceDoesNotCount(s: string)
    requires s != "" && IsSpace(s[|s| - 1])
    ensures Visible(s[..|s| - 1]) == Visible(s) && Words(s[..|s| - 1]) == Words(s)
  {
    if |s| > 1 {
      var front := s[..|s| - 1];
      LastSpaceDoesNotCount(s[1..]);
      assert s[1..][..|s| - 2] == front[1..] && front[0] == s[0];
      assert |s| > 2 ==> front[1] == s[1];
    }
  }

  /** The first word of a text ends before the rest. */
  lemma {:induction false} FirstWordCounts(t: string)
    requires t != "" && !IsSpace(t[0])
    ensures var n := CueBlocks.FieldEnd(t); n > 0 && Visible(t) == n + Visible(t[n..]) && Words(t) == 1 + Words(t[n..])
  {
    var n := CueBlocks.FieldEnd(t);
    if |t| > 1 && !IsSpace(t[1]) {
      FirstWordCounts(t[1..]);
      assert t[1..][n - 1..] == t[n..];
    } else {
      assert n == 1;
    }
  }

  lemma {:induction false} FieldsCount(s: string)
    ensures |Fields(s)| == Words(s)
    ensures |Join(Fields(s), " ")| == Visible(s) + if Words(s) > 1 then Words(s) - 1 else 0
    decreases |s|
  {
    var t := TrimLeft(s);
    TrimLeftShorter(s);
    TrimLeftStops(s);
    LeftSpacesDoNotCount(s);
    if t != "" {
      var n := CueBlocks.FieldEnd(t);
      FirstWordCounts(t);
      FieldsCount(t[n..]);
      var rest := Fields(t[n..]);
      assert Fields(s) == [t[..n]] + rest && Fields(s)[1..] == rest;
      NothingVisible(t[n..]);
    }
  }

  lemma {:induction false} NothingVisible(s: string)
    ensures Words(s) == 0 <==> Visible(s) == 0
  {
    if s != "" {
      NothingVisible(s[1..]);
      assert |s| > 1 && !IsSpace(s[1]) ==> Visible(s[1..]) > 0;
    }
  }

  lemma NextFound(scanned: seq<Cue>, cues: seq<Cue>, start: int)
    requires SameStarts(scanned, cues)
    ensures var next := NextAfter(SortedStarts(scanned), start);
            forall n :: IsNext(cues, start, n) <==> next == Some(n)
  {
    hide NextAfter, SortedStarts;
    StartsSorted(scanned);
    NextAfterFacts(SortedStarts(scanned), start);
    StartsOf(scanned);
    assert forall s :: s in SortedStarts(scanned) <==> exists k | 0 <= k < |cues| :: !cues[k].drop && cues[k].start == s;
    var next := NextAfter(SortedStarts(scanned), start);
    forall n ensures IsNext(cues, start, n) <==> next == Some(n) {
      if IsNext(cues, start, n) {
        assert n in SortedStarts(scanned);
        assert next.Some? && next.value <= n;
        var k :| 0 <= k < |cues| && !cues[k].drop && cues[k].start == next.value;
      }
      if next == Some(n) {
        assert n in SortedStarts(scanned);
        forall k | 0 <= k < |cues| && !cues[k].drop && cues[k].start > start ensures n <= cues[k].start {
          assert cues[k].start in SortedStarts(scanned);
        }
      }
    }
  }

  lemma StartsOf(cues: seq<Cue>)
    ensures forall s :: s in SortedStarts(cues) <==> exists k | 0 <= k < |cues| :: !cues[k].drop && cues[k].start == s
  {
    var le := (a: int, b: int) => a <= b;
    KeptStartsOf(cues);
    Sorting.SortKeepsElements(KeptStarts(cues), le);
  }

  lemma {:induction false} KeptStartsOf(cues: seq<Cue>)
    ensures forall s :: s in KeptStarts(cues) <==> exists k | 0 <= k < |cues| :: !cues[k].drop && cues[k].start == s
  {
    if cues != [] {
      var n := |cues| - 1;
      KeptStartsOf(cues[..n]);
      forall s ensures s in KeptStarts(cues) <==> exists k | 0 <= k < |cues| :: !cues[k].drop && cues[k].start == s {
        if exists k | 0 <= k < |cues| :: !cues[k].drop && cues[k].start == s {
          var k :| 0 <= k < |cues| && !cues[k].drop && cues[k].start == s;
          assert k < n ==> cues[..n][k] == cues[k];
        }
        if exists k | 0 <= k < n :: !cues[..n][k].drop && cues[..n][k].start == s {
          var k :| 0 <= k < n && !cues[..n][k].drop && cues[..n][k].start == s;
          assert cues[k] == cues[..n][k];
        }
      }
    }
  }

  /** The order and timing check that installation applies to the cues of a file. */
  ghost predicate PassesValidation(starts: seq<int>, ends: seq<int>)
    requires |starts| == |ends|
  {
    forall i | 0 <= i < |starts| :: 0 <= starts[i] <= ends[i] && (i > 0 ==> starts[i - 1] <= starts[i])
  }

  function InOrder(cues: seq<Cue>, order: seq<nat>): (r: seq<Cue>)
    requires forall k | k in order :: k < |cues|
    ensures |r| == |order| && forall i | 0 <= i < |order| :: order[i] in order && r[i] == cues[order[i]]
  {
    seq(|order|, i requires 0 <= i < |order| => assert order[i] in order; cues[order[i]])
  }

  function Starts(cues: seq<Cue>): (r: seq<int>)
    ensures |r| == |cues| && forall i | 0 <= i < |cues| :: r[i] == cues[i].start
  {
    seq(|cues|, i requires 0 <= i < |cues| => cues[i].start)
  }

  function Ends(cues: seq<Cue>): (r: seq<int>)
    ensures |r| == |cues| && forall i | 0 <= i < |cues| :: r[i] == cues[i].end
  {
    seq(|cues|, i requires 0 <= i < |cues| => cues[i].end)
  }

  /** The kept cues, put in start order as the rewrite does, pass validation. */
  lemma PlannedCuesValidate(items: seq<Item>, ass: bool)
    requires NonNegative(items)
    ensures var cues := PlannedCues(items, ass);
            var order := KeptInStartOrder(cues);
            (forall k | k in order :: k < |cues|) &&
            PassesValidation(Starts(InOrder(cues, order)), Ends(InOrder(cues, order)))
  {
    hide PlannedCues, KeptInStartOrder;
    var cues := PlannedCues(items, ass);
    var order := KeptInStartOrder(cues);
    StartOrderFacts(cues);
    PlannedCuesPlay(items, ass);
    var kept := InOrder(cues, order);
    forall i | 0 <= i < |kept|
      ensures 0 <= Starts(kept)[i] <= Ends(kept)[i] && (i > 0 ==> Starts(kept)[i - 1] <= Starts(kept)[i])
    {
      assert Playable(cues[order[i]], items[order[i]]);
      assert i > 0 ==> PlaysBefore(cues, order[i - 1], order[i]);
    }
  }

  /** A rewrite of the planned cues would only tidy up: every parsed cue,
      dropped ones included, already passes validation in file order, and no
      kept cue needs new times. */
  ghost predicate OnlyTidying(items: seq<Item>, cues: seq<Cue>)
    requires |items| == |cues|
  {
    && PassesValidation(ItemStarts(items), ItemEnds(items))
    && forall i | 0 <= i < |cues| && !cues[i].drop :: !cues[i].retime
  }

  function ItemStarts(items: seq<Item>): (r: seq<int>)
    ensures |r| == |items| && forall i | 0 <= i < |items| :: r[i] == items[i].start
  {
    seq(|items|, i requires 0 <= i < |items| => items[i].start)
  }

  function ItemEnds(items: seq<Item>): (r: seq<int>)
    ensures |r| == |items| && forall i | 0 <= i < |items| :: r[i] == items[i].end
  {
    seq(|items|, i requires 0 <= i < |items| => items[i].end)
  }

  method OnlyTidies(items: seq<Item>, cues: seq<Cue>) returns (only: bool)
    requires |items| == |cues|
    ensures only <==> OnlyTidying(items, cues)
  {
    var previous := 0;
    for i := 0 to |items|
      invariant previous == if i == 0 then 0 else items[i - 1].start
      invariant previous >= 0
      invariant forall j | 0 <= j < i :: 0 <= items[j].start <= items[j].end && (j > 0 ==> items[j - 1].start <= items[j].start)
      invariant forall j | 0 <= j < i && !cues[j].drop :: !cues[j].retime
    {
      ghost var s, e := ItemStarts(items), ItemEnds(items);
      if items[i].start < previous {
        assert i > 0 ==> s[i - 1] == previous && s[i] < s[i - 1];
        assert i == 0 ==> s[0] < 0;
        return false;
      }
      previous := items[i].start;
      if items[i].end < items[i].start {
        assert e[i] < s[i];
        return false;
      }
      if cues[i].drop {
        continue;
      }
      if cues[i].retime {
        return false;
      }
    }
    return true;
  }

  // ---- the planning loops ------------------------------------------------

  method NextStart(starts: seq<int>, start: int) returns (next: Option<int>)
    requires forall i, j | 0 <= i < j < |starts| :: starts[i] <= starts[j]
    ensures next == NextAfter(starts, start)
  {
    var low, high := 0, |starts|;
    while low < high
      invariant 0 <= low <= high <= |starts|
      invariant forall i | 0 <= i < low :: starts[i] <= start
      invariant forall i | high <= i < |starts| :: starts[i] > start
    {
      var middle := (low + high) / 2;
      if starts[middle] > start {
        high := middle;
      } else {
        low := middle + 1;
      }
    }
    SkipNotAfter(starts, start, low);
    next := if low == |starts| then None else Some(starts[low]);
  }

  lemma {:induction false} SkipNotAfter(starts: seq<int>, start: int, n: nat)
    requires n <= |starts| && (forall i | 0 <= i < n :: starts[i] <= start) && (n < |starts| ==> starts[n] > start)
    ensures NextAfter(starts, start) == if n == |starts| then None else Some(starts[n])
  {
    if n > 0 {
      SkipNotAfter(starts[1..], start, n - 1);
    }
  }

  method ScanItems(items: seq<Item>, ass: bool) returns (cues: seq<Cue>)
    ensures cues == ScanAll(items, ass, |items|).cues
  {
    hide ReadingTime, TrimSpace;
    cues := [];
    var seen: set<(int, int, string)> := {};
    var leader: Option<nat> := None;
    var latest := 0;
    for i := 0 to |items|
      invariant |cues| == i && (leader.Some? ==> leader.value < i)
      invariant Scan(cues, seen, leader, latest) == ScanAll(items, ass, i)
    {
      var item := items[i];
      var text := TrimSpace(item.text);
      var key := (item.start, item.end, text);
      var cue := Cue(item.start, item.end, false, false);
      if text == "" || (!ass && key in seen) {
        cues := cues + [cue.(drop := true)];
        continue;
      }
      seen := seen + {key};
      if !ass && leader.Some? && item.start < latest - TYPO_DISORDER && item.end >= latest && item.end <= latest + TYPO_DISORDER
         && cues[leader.value].end < item.end && item.end - cues[leader.value].end >= ReadingTime(text) {
        cue := cue.(start := cues[leader.value].end, retime := true);
      }
      cues := cues + [cue];
      if leader.None? || cue.start >= latest {
        latest, leader := cue.start, Some(i);
      }
    }
  }

  method CollectStarts(cues: seq<Cue>) returns (starts: seq<int>)
    ensures starts == SortedStarts(cues)
  {
    starts := [];
    for i := 0 to |cues|
      invariant starts == KeptStarts(cues[..i])
    {
      if !cues[i].drop {
        starts := starts + [cues[i].start];
      }
      assert cues[..i + 1][..i] == cues[..i];
    }
    assert cues[..|cues|] == cues;
    starts := Sorting.StableSort(starts, (a: int, b: int) => a <= b);
  }

  method FixEnds(scanned: seq<Cue>, items: seq<Item>, starts: seq<int>, ass: bool) returns (cues: seq<Cue>)
    requires |scanned| == |items|
    requires forall i, j | 0 <= i < j < |starts| :: starts[i] <= starts[j]
    ensures |cues| == |items| && forall k | 0 <= k < |cues| :: cues[k] == FixEnd(scanned[k], items[k], starts, ass)
  {
    hide ReadingTime, TrimSpace, NextAfter;
    cues := scanned;
    for i := 0 to |cues|
      invariant |cues| == |items|
      invariant forall k | 0 <= k < i :: cues[k] == FixEnd(scanned[k], items[k], starts, ass)
      invariant forall k | i <= k < |cues| :: cues[k] == scanned[k]
    {
      if cues[i].drop {
        continue;
      }
      var reading := ReadingTime(TrimSpace(items[i].text));
      var next := NextStart(starts, cues[i].start);
      if cues[i].end < cues[i].start {
        var end := cues[i].start + reading;
        if next.Some? && next.value < end {
          end := Max(next.value, cues[i].start + 500 * MILLISECOND);
        }
        cues := cues[i := cues[i].(end := end, retime := true)];
        continue;
      }
      var duration := cues[i].end - cues[i].start;
      if next.Some? && !ass && cues[i].end > next.value + TYPO_DISORDER && duration > 3 * reading && duration > MISTYPED_END
         && !items[i].heldApart {
        cues := cues[i := cues[i].(end := Max(next.value, cues[i].start + reading), retime := true)];
      }
    }
  }

  /** Plans the repairs of a parsed subtitle. */
  method PlanRepairs(items: seq<Item>, ass: bool) returns (plan: Plan)
    ensures plan.Planned? ==> plan.cues == PlannedCues(items, ass)
    ensures ass ==> plan.Planned?
    ensures !ass ==> forall low, high | low <= high && OverlapSweep.Spans(PlannedCues(items, ass), low, high) ::
              plan.TwoSubtitles? <==> 4 * OverlapSweep.Instants(PlannedCues(items, ass), 2, low, high)
                                      > OverlapSweep.Instants(PlannedCues(items, ass), 1, low, high)
  {
    hide SortedStarts, FixEnd, ScanAll, OverlapSweep.Instants;
    var scanned := ScanItems(items, ass);
    var starts := CollectStarts(scanned);
    StartsSorted(scanned);
    var cues := FixEnds(scanned, items, starts, ass);
    assert cues == PlannedCues(items, ass);
    if ass {
      return Planned(cues);
    }
    var merged := OverlapSweep.MergedOverlap(cues);
    plan := if merged then TwoSubtitles else Planned(cues);
  }
}
