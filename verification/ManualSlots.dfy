/** The counting semaphore of manual searches, which grants waiters strictly in
    arrival order and hands a slot on when its caller gave up just as it was
    granted (internal/app/manual_search.go). */
module ManualSlots {
  import opened Text

  /** The semaphore's two fields; callers that had to wait are named by their
      arrival number. */
  datatype Slots = Slots(free: int, waiters: seq<nat>)

  /** The first section of acquire: a free slot goes to a caller with nobody
      ahead; otherwise it queues. */
  function Entered(s: Slots, caller: nat): Slots {
    if s.free > 0 && s.waiters == [] then s.(free := s.free - 1) else s.(waiters := s.waiters + [caller])
  }

  predicate EntersAtOnce(s: Slots) { s.free > 0 && s.waiters == [] }

  /** Giving up: the caller leaves the queue if it is still in it. */
  function Withdrawn(s: Slots, caller: nat): Slots {
    s.(waiters := Without(s.waiters, caller))
  }

  function Without(waiters: seq<nat>, caller: nat): seq<nat> {
    if waiters == [] then [] else if waiters[0] == caller then waiters[1..] else [waiters[0]] + Without(waiters[1..], caller)
  }

  /** Releasing hands the slot to the longest waiter, or frees it. */
  function Released(s: Slots): Slots {
    if s.waiters != [] then s.(waiters := s.waiters[1..]) else s.(free := s.free + 1)
  }

  function GrantedBy(s: Slots): Option<nat> {
    if s.waiters != [] then Some(s.waiters[0]) else None
  }

  class ManualSlots {
    var free: int
    var waiters: seq<nat>

    ghost function State(): Slots
      reads this
    {
      Slots(free, waiters)
    }

    constructor (n: int)
      ensures State() == Slots(n, [])
    {
      free, waiters := n, [];
    }

    method Enter(caller: nat) returns (held: bool)
      modifies this
      ensures held <==> EntersAtOnce(old(State()))
      ensures State() == Entered(old(State()), caller)
    {
      if free > 0 && waiters == [] {
        free := free - 1;
        return true;
      }
      waiters := waiters + [caller];
      return false;
    }

    method Withdraw(caller: nat) returns (removed: bool)
      modifies this
      ensures removed <==> caller in old(waiters)
      ensures State() == Withdrawn(old(State()), caller)
    {
      for i := 0 to |waiters|
        invariant State() == old(State()) && caller !in waiters[..i]
      {
        if waiters[i] == caller {
          WithoutAt(waiters, i);
          waiters := waiters[..i] + waiters[i + 1..];
          return true;
        }
      }
      WithoutAbsent(waiters, caller);
      return false;
    }

    method Release() returns (granted: Option<nat>)
      modifies this
      ensures granted == GrantedBy(old(State()))
      ensures State() == Released(old(State()))
    {
      if |waiters| > 0 {
        granted := Some(waiters[0]);
        waiters := waiters[1..];
        return;
      }
      free := free + 1;
      granted := None;
    }

    method Waiting() returns (n: nat)
      ensures n == |State().waiters|
    {
      n := |waiters|;
    }
  }

  lemma {:induction false} WithoutAt(waiters: seq<nat>, i: nat)
    requires i < |waiters| && waiters[i] !in waiters[..i]
    ensures Without(waiters, waiters[i]) == waiters[..i] + waiters[i + 1..]
  {
    if i > 0 {
      assert waiters[0] in waiters[..i];
      assert waiters[1..][..i - 1] == waiters[..i][1..];
      WithoutAt(waiters[1..], i - 1);
    }
  }

  lemma {:induction false} WithoutAbsent(waiters: seq<nat>, caller: nat)
    requires caller !in waiters
    ensures Without(waiters, caller) == waiters
  {
    if waiters != [] {
      WithoutAbsent(waiters[1..], caller);
    }
  }

  // ---- every interleaving ------------------------------------------------

  /** Where a caller stands: queued, granted but not yet aware of it, holding a
      slot, giving up with a slot to pass on, or gone. */
  datatype Phase = Queued | Granted | Holding | Passing | Gone {
    predicate HasSlot() { this in {Granted, Holding, Passing} }
  }

  /** The semaphore, its callers in arrival order, and the callers that were
      given a slot, in that order. */
  datatype World = World(slots: Slots, phases: seq<Phase>, grants: seq<nat>)

  datatype Step = Arrive | Observe(caller: nat) | Cancel(caller: nat) | PassOn(caller: nat) | Finish(caller: nat)

  predicate Enabled(w: World, step: Step) {
    match step
    case Arrive => true
    case Observe(c) => c < |w.phases| && w.phases[c] == Granted
    case Cancel(c) => c < |w.phases| && w.phases[c] in {Queued, Granted}
    case PassOn(c) => c < |w.phases| && w.phases[c] == Passing
    case Finish(c) => c < |w.phases| && w.phases[c] == Holding
  }

  function ReleaseIn(w: World, caller: nat): World
    requires caller < |w.phases|
  {
    var gone := w.phases[caller := Gone];
    match GrantedBy(w.slots)
    case None => World(Released(w.slots), gone, w.grants)
    case Some(next) =>
      World(Released(w.slots), if next < |gone| then gone[next := Granted] else gone, w.grants + [next])
  }

  function Next(w: World, step: Step): World
    requires Enabled(w, step)
  {
    match step
    case Arrive =>
      var caller := |w.phases|;
      if EntersAtOnce(w.slots) then World(Entered(w.slots, caller), w.phases + [Holding], w.grants + [caller])
      else World(Entered(w.slots, caller), w.phases + [Queued], w.grants)
    case Observe(c) => w.(phases := w.phases[c := Holding])
    case Cancel(c) =>
      if c in w.slots.waiters then World(Withdrawn(w.slots, c), w.phases[c := Gone], w.grants)
      else w.(phases := w.phases[c := Passing])
    case PassOn(c) => ReleaseIn(w, c)
    case Finish(c) => ReleaseIn(w, c)
  }

  function Start(n: nat): World { World(Slots(n, []), [], []) }

  function SlotsHeld(phases: seq<Phase>): nat {
    if phases == [] then 0 else SlotsHeld(phases[..|phases| - 1]) + if phases[|phases| - 1].HasSlot() then 1 else 0
  }

  ghost predicate Ascending(xs: seq<nat>) {
    forall i, j | 0 <= i < j < |xs| :: xs[i] < xs[j]
  }

  /** No slot is lost or doubled, nobody waits beside a free slot, and slots
      went out in arrival order: every grant precedes everyone still queued. */
  ghost predicate Inv(w: World, n: nat) {
    && w.slots.free >= 0
    && w.slots.free + SlotsHeld(w.phases) == n
    && (w.slots.waiters != [] ==> w.slots.free == 0)
    && (forall c: nat :: c in w.slots.waiters <==> c < |w.phases| && w.phases[c] == Queued)
    && Ascending(w.slots.waiters)
    && Ascending(w.grants)
    && (forall g, c | g in w.grants && c in w.slots.waiters :: g < c)
    && (forall c | 0 <= c < |w.phases| && w.phases[c].HasSlot() :: c in w.grants)
    && (forall g | g in w.grants :: g < |w.phases|)
  }

  lemma {:induction false} HeldAfter(phases: seq<Phase>, c: nat, p: Phase)
    requires c < |phases|
    ensures SlotsHeld(phases[c := p]) == SlotsHeld(phases) - (if phases[c].HasSlot() then 1 else 0) + (if p.HasSlot() then 1 else 0)
  {
    var n := |phases| - 1;
    if c < n {
      HeldAfter(phases[..n], c, p);
      assert phases[c := p][..n] == phases[..n][c := p];
    } else {
      assert phases[c := p][..n] == phases[..n];
    }
  }

  lemma HeldAppend(phases: seq<Phase>, p: Phase)
    ensures SlotsHeld(phases + [p]) == SlotsHeld(phases) + if p.HasSlot() then 1 else 0
  {
    assert (phases + [p])[..|phases|] == phases;
  }

  lemma AscendAppend(xs: seq<nat>, x: nat)
    requires Ascending(xs) && forall y | y in xs :: y < x
    ensures Ascending(xs + [x])
  {
    assert forall i | 0 <= i < |xs| :: xs[i] in xs;
  }

  lemma AscendPrepend(x: nat, xs: seq<nat>)
    requires Ascending(xs) && forall y | y in xs :: x < y
    ensures Ascending([x] + xs)
  {
    assert forall i | 0 <= i < |xs| :: xs[i] in xs;
  }

  lemma AscendTail(xs: seq<nat>)
    requires Ascending(xs) && xs != []
    ensures Ascending(xs[1..]) && (forall y | y in xs[1..] :: xs[0] < y) && xs[0] in xs && xs[0] !in xs[1..]
    ensures forall y :: y in xs <==> y == xs[0] || y in xs[1..]
  {
    assert xs == [xs[0]] + xs[1..];
  }

  lemma {:induction false} WithoutFacts(waiters: seq<nat>, caller: nat)
    requires Ascending(waiters)
    ensures Ascending(Without(waiters, caller))
    ensures forall c :: c in Without(waiters, caller) <==> c in waiters && c != caller
  {
    if waiters != [] {
      AscendTail(waiters);
      WithoutFacts(waiters[1..], caller);
      if waiters[0] != caller {
        AscendPrepend(waiters[0], Without(waiters[1..], caller));
      }
    }
  }

  lemma ArriveKeeps(w: World, n: nat)
    requires Inv(w, n)
    ensures Inv(Next(w, Arrive), n)
  {
    HeldAppend(w.phases, Holding);
    HeldAppend(w.phases, Queued);
    AscendAppend(w.slots.waiters, |w.phases|);
    AscendAppend(w.grants, |w.phases|);
    hide Ascending, SlotsHeld;
    var after := Next(w, Arrive);
    assert forall c | 0 <= c < |w.phases| :: after.phases[c] == w.phases[c];
    assert forall c: nat :: c in after.slots.waiters <==> c in w.slots.waiters || (c == |w.phases| && !EntersAtOnce(w.slots));
  }

  lemma ReleaseKeeps(w: World, n: nat, caller: nat)
    requires Inv(w, n) && caller < |w.phases| && w.phases[caller].HasSlot()
    ensures Inv(ReleaseIn(w, caller), n)
  {
    HeldAfter(w.phases, caller, Gone);
    if w.slots.waiters != [] {
      HandOnKeeps(w, n, caller);
    }
  }

  lemma HandOnKeeps(w: World, n: nat, caller: nat)
    requires Inv(w, n) && caller < |w.phases| && w.phases[caller].HasSlot() && w.slots.waiters != []
    ensures Inv(ReleaseIn(w, caller), n)
  {
    var next := w.slots.waiters[0];
    AscendTail(w.slots.waiters);
    HeldAfter(w.phases, caller, Gone);
    HeldAfter(w.phases[caller := Gone], next, Granted);
    AscendAppend(w.grants, next);
    hide Ascending, SlotsHeld;
    var after := ReleaseIn(w, caller);
    assert after.grants == w.grants + [next];
    assert after.phases == w.phases[caller := Gone][next := Granted];
  }

  lemma CancelKeeps(w: World, n: nat, caller: nat)
    requires Inv(w, n) && Enabled(w, Cancel(caller))
    ensures Inv(Next(w, Cancel(caller)), n)
  {
    WithoutFacts(w.slots.waiters, caller);
    HeldAfter(w.phases, caller, Gone);
    HeldAfter(w.phases, caller, Passing);
  }

  lemma StepKeeps(w: World, n: nat, step: Step)
    requires Inv(w, n) && Enabled(w, step)
    ensures Inv(Next(w, step), n)
  {
    match step
    case Arrive => ArriveKeeps(w, n);
    case Observe(c) => HeldAfter(w.phases, c, Holding);
    case Cancel(c) => CancelKeeps(w, n, c);
    case PassOn(c) => ReleaseKeeps(w, n, c);
    case Finish(c) => ReleaseKeeps(w, n, c);
  }

  /** A run of enabled steps; a step that is not enabled is skipped. */
  function Run(w: World, steps: seq<Step>): World {
    if steps == [] then w
    else
      var before := Run(w, steps[..|steps| - 1]);
      if Enabled(before, steps[|steps| - 1]) then Next(before, steps[|steps| - 1]) else before
  }

  /** Every interleaving of arrivals, grants, cancellations and releases keeps
      the invariant. */
  lemma {:induction false} EveryRunKeeps(n: nat, steps: seq<Step>)
    ensures Inv(Run(Start(n), steps), n)
  {
    hide Inv;
    if steps == [] {
      StartIsFine(n);
    } else {
      EveryRunKeeps(n, steps[..|steps| - 1]);
      var before := Run(Start(n), steps[..|steps| - 1]);
      if Enabled(before, steps[|steps| - 1]) {
        StepKeeps(before, n, steps[|steps| - 1]);
      }
    }
  }

  lemma StartIsFine(n: nat)
    ensures Inv(Start(n), n)
  {
  }

  /** Once every caller is gone, all slots are free again: none is lost, even
      when callers gave up just as they were granted. */
  lemma NoneIsLost(n: nat, steps: seq<Step>)
    requires forall c | 0 <= c < |Run(Start(n), steps).phases| :: Run(Start(n), steps).phases[c] == Gone
    ensures Run(Start(n), steps).slots == Slots(n, [])
  {
    hide Run;
    EveryRunKeeps(n, steps);
    var w := Run(Start(n), steps);
    AllGone(w.phases);
    NobodyIn(w.slots.waiters);
  }

  lemma NobodyIn(waiters: seq<nat>)
    ensures waiters == [] || exists c: nat :: c in waiters
  {
    assert waiters == [] || waiters[0] in waiters;
  }

  lemma {:induction false} AllGone(phases: seq<Phase>)
    requires forall c | 0 <= c < |phases| :: phases[c] == Gone
    ensures SlotsHeld(phases) == 0
  {
    if phases != [] {
      AllGone(phases[..|phases| - 1]);
    }
  }

  /** While somebody waits, all n slots are out, so with any slot at all some
      caller can still act and pass its slot on. */
  lemma {:induction false} WaitersAreServed(n: nat, steps: seq<Step>)
    requires n > 0 && Run(Start(n), steps).slots.waiters != []
    ensures var w := Run(Start(n), steps);
            SlotsHeld(w.phases) == n && exists c | 0 <= c < |w.phases| :: w.phases[c].HasSlot()
  {
    hide Run;
    EveryRunKeeps(n, steps);
    SomeoneHolds(Run(Start(n), steps).phases);
  }

  lemma {:induction false} SomeoneHolds(phases: seq<Phase>)
    requires SlotsHeld(phases) > 0
    ensures exists c | 0 <= c < |phases| :: phases[c].HasSlot()
  {
    var n := |phases| - 1;
    if !phases[n].HasSlot() {
      SomeoneHolds(phases[..n]);
      var c :| 0 <= c < n && phases[..n][c].HasSlot();
      assert phases[c].HasSlot();
    }
  }

  /** An earlier caller that still waits has not been overtaken: no later
      caller was ever granted a slot. */
  lemma ArrivalOrder(n: nat, steps: seq<Step>, earlier: nat, later: nat)
    requires var w := Run(Start(n), steps); earlier < later < |w.phases| && w.phases[earlier] == Queued
    ensures var w := Run(Start(n), steps); later !in w.grants && w.phases[later] in {Queued, Gone}
  {
    hide Run;
    EveryRunKeeps(n, steps);
    var w := Run(Start(n), steps);
    assert earlier in w.slots.waiters;
  }
}
