/** How long a subtitle's cues overlap: a sweep over sorted start and end
    events, against the count of instants under one or more cues
    (internal/pack/repair.go, overlapShare). Times are integers. */
module OverlapSweep {
  import opened SubtitleRewrite
  import Sorting

  datatype Event = Event(at: int, delta: int)

  predicate Shown(cue: Cue) { !cue.drop && cue.end > cue.start }

  function EventsOf(cues: seq<Cue>): seq<Event> {
    if cues == [] then []
    else EventsOf(cues[..|cues| - 1]) +
         var cue := cues[|cues| - 1];
         if Shown(cue) then [Event(cue.start, 1), Event(cue.end, -1)] else []
  }

  /** Events in time order, ends before starts. */
  predicate EventLe(a: Event, b: Event) {
    a.at < b.at || (a.at == b.at && a.delta <= b.delta)
  }

  function Sorted(cues: seq<Cue>): seq<Event> {
    Sorting.StableSort(EventsOf(cues), (a: Event, b: Event) => EventLe(a, b))
  }

  /** How many shown cues cover instant t. */
  function Depth(cues: seq<Cue>, t: int): nat {
    if cues == [] then 0
    else
      var cue := cues[|cues| - 1];
      Depth(cues[..|cues| - 1], t) + if !cue.drop && cue.start <= t < cue.end then 1 else 0
  }

  /** The instants in [low, high) that at least d cues cover. */
  function Instants(cues: seq<Cue>, d: nat, low: int, high: int): nat
    decreases high - low
  {
    if high <= low then 0 else Instants(cues, d, low, high - 1) + if Depth(cues, high - 1) >= d then 1 else 0
  }

  /** Every shown cue lies within [low, high]. */
  ghost predicate Spans(cues: seq<Cue>, low: int, high: int) {
    forall i | 0 <= i < |cues| && !cues[i].drop && cues[i].end > cues[i].start :: low <= cues[i].start && cues[i].end <= high
  }

  function Total(events: seq<Event>): int {
    if events == [] then 0 else Total(events[..|events| - 1]) + events[|events| - 1].delta
  }

  /** Which events a partial sum takes: all up to an instant, or all before it
      and its ends. */
  datatype Cut = UpTo(t: int) | Before(t: int)

  predicate Taken(e: Event, cut: Cut) {
    match cut
    case UpTo(t) => e.at <= t
    case Before(t) => e.at < t || (e.at == t && e.delta < 0)
  }

  function Part(events: seq<Event>, cut: Cut): int {
    if events == [] then 0
    else Part(events[1..], cut) + if Taken(events[0], cut) then events[0].delta else 0
  }

  lemma {:induction false} PartAppend(a: seq<Event>, b: seq<Event>, cut: Cut)
    ensures Part(a + b, cut) == Part(a, cut) + Part(b, cut)
  {
    if a == [] {
      assert a + b == b;
    } else {
      assert (a + b)[1..] == a[1..] + b;
      PartAppend(a[1..], b, cut);
    }
  }

  lemma {:induction false} PartPermutes(a: seq<Event>, b: seq<Event>, cut: Cut)
    requires multiset(a) == multiset(b)
    ensures Part(a, cut) == Part(b, cut)
  {
    assert |multiset(a)| == |a| && |multiset(b)| == |b|;
    if a != [] {
      assert a[0] in multiset(b);
      var i :| 0 <= i < |b| && b[i] == a[0];
      Sorting.TakeOut(a, b, i);
      PartPermutes(a[1..], b[..i] + b[i + 1..], cut);
      PartAppend(b[..i], b[i + 1..], cut);
      PartAppend(b[..i], [b[i]] + b[i + 1..], cut);
      assert b == b[..i] + ([b[i]] + b[i + 1..]);
    }
  }

  /** Summing the events up to t gives the cues that cover t. */
  lemma {:induction false} PartIsDepth(cues: seq<Cue>, t: int)
    ensures Part(EventsOf(cues), UpTo(t)) == Depth(cues, t)
    ensures Part(EventsOf(cues), Before(t)) >= 0
  {
    if cues != [] {
      var front := cues[..|cues| - 1];
      var cue := cues[|cues| - 1];
      PartIsDepth(front, t);
      var pair := [Event(cue.start, 1), Event(cue.end, -1)];
      PartAppend(EventsOf(front), pair, UpTo(t));
      PartAppend(EventsOf(front), pair, Before(t));
      assert EventsOf(front) + [] == EventsOf(front);
      if Shown(cue) { PartOfPair(cue, t); }
    }
  }

  lemma PartOfPair(cue: Cue, t: int)
    requires Shown(cue)
    ensures Part([Event(cue.start, 1), Event(cue.end, -1)], UpTo(t)) == if cue.start <= t < cue.end then 1 else 0
    ensures Part([Event(cue.start, 1), Event(cue.end, -1)], Before(t)) >= 0
  {
    var pair := [Event(cue.start, 1), Event(cue.end, -1)];
    var last := [Event(cue.end, -1)];
    assert pair[1..] == last && last[1..] == [];
    assert Part(last, UpTo(t)) == if cue.end <= t then -1 else 0;
    assert Part(last, Before(t)) == if cue.end <= t then -1 else 0;
  }

  lemma EventOrder()
    ensures Sorting.TotalPreorder((a: Event, b: Event) => EventLe(a, b))
  {
  }

  ghost predicate InEventOrder(events: seq<Event>) {
    forall i, j | 0 <= i < j < |events| :: EventLe(events[i], events[j])
  }

  lemma SortedFacts(cues: seq<Cue>)
    ensures multiset(Sorted(cues)) == multiset(EventsOf(cues)) && InEventOrder(Sorted(cues))
  {
    EventOrder();
    Sorting.SortIsSorted(EventsOf(cues), (a: Event, b: Event) => EventLe(a, b));
  }

  /** Equal events cannot be told apart, so an unstable sort gives the same list. */
  lemma SortedIsOnly(cues: seq<Cue>, events: seq<Event>)
    requires multiset(events) == multiset(EventsOf(cues)) && InEventOrder(events)
    ensures events == Sorted(cues)
  {
    EventOrder();
    SortedFacts(cues);
    Sorting.SortedUnique(events, Sorted(cues), (a: Event, b: Event) => EventLe(a, b));
  }

  /** Between two neighbouring events the running total is the depth. */
  lemma {:induction false} TotalIsPart(events: seq<Event>, n: nat, t: int)
    requires n <= |events|
    requires InEventOrder(events)
    requires (n > 0 ==> events[n - 1].at <= t) && (n < |events| ==> t < events[n].at)
    ensures Total(events[..n]) == Part(events, UpTo(t))
  {
    assert events == events[..n] + events[n..];
    PartAppend(events[..n], events[n..], UpTo(t));
    AllTaken(events[..n], UpTo(t));
    NoneTaken(events[n..], UpTo(t));
  }

  lemma {:induction false} AllTaken(events: seq<Event>, cut: Cut)
    requires forall i | 0 <= i < |events| :: Taken(events[i], cut)
    ensures Part(events, cut) == Total(events)
  {
    if events != [] {
      var n := |events| - 1;
      AllTaken(events[..n], cut);
      PartAppend(events[..n], [events[n]], cut);
      assert events == events[..n] + [events[n]];
      assert [events[n]][1..] == [];
    }
  }

  lemma {:induction false} NoneTaken(events: seq<Event>, cut: Cut)
    requires forall i | 0 <= i < |events| :: !Taken(events[i], cut)
    ensures Part(events, cut) == 0
  {
    if events != [] {
      NoneTaken(events[1..], cut);
    }
  }

  /** A partial sum that leaves out starts is at most the total, and one that
      takes only ends is at most zero. */
  lemma {:induction false} PartBelowTotal(events: seq<Event>, cut: Cut)
    ensures (forall i | 0 <= i < |events| && !Taken(events[i], cut) :: events[i].delta >= 0) ==> Part(events, cut) <= Total(events)
    ensures (forall i | 0 <= i < |events| && Taken(events[i], cut) :: events[i].delta <= 0) ==> Part(events, cut) <= 0
  {
    if events != [] {
      var n := |events| - 1;
      PartBelowTotal(events[..n], cut);
      PartAppend(events[..n], [events[n]], cut);
      assert events == events[..n] + [events[n]];
      assert [events[n]][1..] == [];
    }
  }

  /** The sweep's running depth is never negative, not even between events at
      the same instant. */
  lemma DepthNeverNegative(cues: seq<Cue>, n: nat)
    requires n <= |Sorted(cues)|
    ensures Total(Sorted(cues)[..n]) >= 0
  {
    hide Sorted, EventsOf, Part, Depth;
    var events := Sorted(cues);
    SortedFacts(cues);
    if n > 0 {
      var t := events[n - 1].at;
      PartIsDepth(cues, t);
      PartPermutes(EventsOf(cues), events, Before(t));
      assert events == events[..n] + events[n..];
      PartAppend(events[..n], events[n..], Before(t));
      PartBelowTotal(events[..n], Before(t));
      PartBelowTotal(events[n..], Before(t));
      assert forall i | 0 <= i < n :: !Taken(events[..n][i], Before(t)) ==> events[i].delta >= 0;
      assert forall i | 0 <= i < |events[n..]| && Taken(events[n..][i], Before(t)) :: events[n..][i].delta <= 0;
    }
  }

  lemma {:induction false} InstantsSplit(cues: seq<Cue>, d: nat, low: int, mid: int, high: int)
    requires low <= mid <= high
    ensures Instants(cues, d, low, high) == Instants(cues, d, low, mid) + Instants(cues, d, mid, high)
    decreases high - mid
  {
    if mid < high {
      InstantsSplit(cues, d, low, mid, high - 1);
    }
  }

  lemma {:induction false} SteadyInstants(cues: seq<Cue>, d: nat, low: int, high: int, depth: int)
    requires low <= high && forall t | low <= t < high :: Depth(cues, t) == depth
    ensures Instants(cues, d, low, high) == if depth >= d then high - low else 0
    decreases high - low
  {
    if low < high {
      SteadyInstants(cues, d, low, high - 1, depth);
      assert Depth(cues, high - 1) == depth;
    }
  }

  /** Between events n - 1 and n every instant has the running depth. */
  lemma SpanDepth(cues: seq<Cue>, n: nat, d: nat)
    requires 0 < n < |Sorted(cues)|
    ensures var events := Sorted(cues);
            && events[n - 1].at <= events[n].at
            && Instants(cues, d, events[n - 1].at, events[n].at) ==
               if Total(events[..n]) >= d then events[n].at - events[n - 1].at else 0
  {
    hide Sorted, EventsOf, Part, Depth, Instants;
    var events := Sorted(cues);
    SortedFacts(cues);
    assert EventLe(events[n - 1], events[n]);
    forall t | events[n - 1].at <= t < events[n].at ensures Depth(cues, t) == Total(events[..n]) {
      TotalIsPart(events, n, t);
      PartPermutes(EventsOf(cues), events, UpTo(t));
      PartIsDepth(cues, t);
    }
    SteadyInstants(cues, d, events[n - 1].at, events[n].at, Total(events[..n]));
  }

  lemma {:induction false} EventsWithin(cues: seq<Cue>, low: int, high: int)
    requires Spans(cues, low, high)
    ensures forall e | e in EventsOf(cues) :: low <= e.at <= high
    ensures forall t | t < low || t >= high :: Depth(cues, t) == 0
  {
    if cues != [] {
      EventsWithin(cues[..|cues| - 1], low, high);
    }
  }

  /** Outside the first and last event no cue is shown. */
  lemma NothingOutside(cues: seq<Cue>, d: nat, low: int, high: int)
    requires d > 0 && low <= high && Spans(cues, low, high)
    ensures Sorted(cues) == [] ==> Instants(cues, d, low, high) == 0
    ensures Sorted(cues) != [] ==>
              var events := Sorted(cues);
              Instants(cues, d, low, high) == Instants(cues, d, events[0].at, events[|events| - 1].at)
  {
    hide Sorted, EventsOf, Depth, Instants;
    var events := Sorted(cues);
    SortedFacts(cues);
    EventsWithin(cues, low, high);
    if events == [] {
      forall t ensures Depth(cues, t) == 0 {
        PartIsDepth(cues, t);
        PartPermutes(EventsOf(cues), events, UpTo(t));
      }
      SteadyInstants(cues, d, low, high, 0);
    } else {
      var first, last := events[0].at, events[|events| - 1].at;
      NoDepthOutside(cues, low, high);
      assert events[0] in multiset(events) && events[|events| - 1] in multiset(events);
      assert |events| > 1 ==> EventLe(events[0], events[|events| - 1]);
      SteadyInstants(cues, d, low, first, 0);
      SteadyInstants(cues, d, last, high, 0);
      InstantsSplit(cues, d, low, first, high);
      InstantsSplit(cues, d, first, last, high);
    }
  }

  lemma NoDepthOutside(cues: seq<Cue>, low: int, high: int)
    requires Spans(cues, low, high) && Sorted(cues) != []
    ensures var events := Sorted(cues);
            forall t | t < events[0].at || t >= events[|events| - 1].at :: Depth(cues, t) == 0
  {
    hide Sorted, EventsOf, Part, Depth;
    var events := Sorted(cues);
    SortedFacts(cues);
    EndsAtZero(cues, high);
    assert |events| > 1 ==> EventLe(events[0], events[|events| - 1]);
    assert events[..|events|] == events && events[..0] == [];
    forall t | t < events[0].at || t >= events[|events| - 1].at ensures Depth(cues, t) == 0 {
      PartIsDepth(cues, t);
      PartPermutes(EventsOf(cues), events, UpTo(t));
      TotalIsPart(events, if t < events[0].at then 0 else |events|, t);
    }
  }

  /** All events together cancel out. */
  lemma EndsAtZero(cues: seq<Cue>, high: int)
    requires exists low :: Spans(cues, low, high)
    ensures Total(Sorted(cues)) == 0
  {
    hide Sorted, EventsOf, Part, Depth;
    var low :| Spans(cues, low, high);
    var events := Sorted(cues);
    SortedFacts(cues);
    EventsWithin(cues, low, high);
    forall i | 0 <= i < |events| ensures events[i].at <= high {
      assert events[i] in multiset(events);
    }
    PartIsDepth(cues, high);
    PartPermutes(EventsOf(cues), events, UpTo(high));
    AllTaken(events, UpTo(high));
  }

  /** What one step of the sweep adds. */
  lemma SweepStep(cues: seq<Cue>, i: nat, d: nat)
    requires 0 < i < |Sorted(cues)|
    ensures var events := Sorted(cues);
            && events[i - 1].at <= events[i].at
            && Instants(cues, d, events[0].at, events[i].at) ==
               Instants(cues, d, events[0].at, events[i - 1].at) + if Total(events[..i]) >= d then events[i].at - events[i - 1].at else 0
  {
    hide Sorted, Total, Instants;
    var events := Sorted(cues);
    SortedFacts(cues);
    assert i > 1 ==> EventLe(events[0], events[i - 1]);
    SpanDepth(cues, i, d);
    InstantsSplit(cues, d, events[0].at, events[i - 1].at, events[i].at);
  }

  /** The time covered by any cue and by two or more: exactly the instants at
      depth one and two, over any span that holds every shown cue. */
  method OverlapTotals(cues: seq<Cue>) returns (covered: int, overlapped: int)
    ensures forall low, high | low <= high && Spans(cues, low, high) ::
              covered == Instants(cues, 1, low, high) && overlapped == Instants(cues, 2, low, high)
    ensures 0 <= overlapped <= covered
  {
    var events := [];
    for c := 0 to |cues|
      invariant events == EventsOf(cues[..c])
    {
      if Shown(cues[c]) {
        events := events + [Event(cues[c].start, 1), Event(cues[c].end, -1)];
      }
      assert cues[..c + 1][..c] == cues[..c];
    }
    assert cues[..|cues|] == cues;
    events := Sorting.StableSort(events, (a: Event, b: Event) => EventLe(a, b));
    assert events == Sorted(cues);
    hide Sorted, Depth, Instants, EventsOf;
    covered, overlapped := 0, 0;
    var depth := 0;
    for i := 0 to |events|
      invariant events == Sorted(cues) && depth == Total(events[..i])
      invariant 0 <= overlapped <= covered
      invariant i == 0 ==> covered == 0 && overlapped == 0
      invariant i > 0 ==> covered == Instants(cues, 1, events[0].at, events[i - 1].at)
      invariant i > 0 ==> overlapped == Instants(cues, 2, events[0].at, events[i - 1].at)
    {
      if i > 0 {
        SweepStep(cues, i, 1);
        SweepStep(cues, i, 2);
        if depth > 0 {
          var span := events[i].at - events[i - 1].at;
          covered := covered + span;
          if depth > 1 {
            overlapped := overlapped + span;
          }
        }
      }
      assert events[..i + 1][..i] == events[..i];
      depth := depth + events[i].delta;
    }
    forall low, high | low <= high && Spans(cues, low, high)
      ensures covered == Instants(cues, 1, low, high) && overlapped == Instants(cues, 2, low, high)
    {
      NothingOutside(cues, 1, low, high);
      NothingOutside(cues, 2, low, high);
    }
  }

  /** More than a quarter of the shown time under two cues at once. */
  method MergedOverlap(cues: seq<Cue>) returns (merged: bool)
    ensures forall low, high | low <= high && Spans(cues, low, high) ::
              merged <==> 4 * Instants(cues, 2, low, high) > Instants(cues, 1, low, high)
  {
    var covered, overlapped := OverlapTotals(cues);
    merged := covered != 0 && 4 * overlapped > covered;
  }
}
