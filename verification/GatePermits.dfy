/** The two-level permit gate in front of every provider request: one semaphore
    per configured provider, one per origin shared by all providers, and an
    availability check before and after both are held
    (internal/provider/limiter.go:72-135). */
module GatePermits {
  import opened Text
  import opened ProviderState

  /** A semaphore channel: its capacity, the permits taken, and whether it is
      the shared one of an origin or the own one of a provider. */
  datatype Semaphore = Semaphore(name: string, shared: bool, capacity: nat, held: nat) {
    predicate Full() { held >= capacity }
  }

  /** What the gate's mutex guards. Semaphores are never forgotten: callers
      keep the one they looked up, even when the provider is reconfigured. */
  datatype Table = Table(semaphores: seq<Semaphore>, instances: map<string, nat>, origins: map<string, nat>)

  function AtLeastOne(n: int): nat { if n <= 0 then 1 else n }

  function Configured(t: Table, provider: string, maxConcurrent: int): Table {
    Table(t.semaphores + [Semaphore(provider, false, AtLeastOne(maxConcurrent), 0)], t.instances[provider := |t.semaphores|], t.origins)
  }

  /** The lookup makes the origin's semaphore on its first use. */
  function LookedUp(t: Table, origin: string, sharedMax: int): Table {
    if origin in t.origins then t
    else Table(t.semaphores + [Semaphore(origin, true, AtLeastOne(sharedMax), 0)], t.instances, t.origins[origin := |t.semaphores|])
  }

  class Gate {
    const sharedMax: int
    var semaphores: seq<Semaphore>
    var instances: map<string, nat>
    var origins: map<string, nat>

    ghost function State(): Table
      reads this
    {
      Table(semaphores, instances, origins)
    }

    constructor (sharedMax: int)
      ensures State() == Table([], map[], map[]) && this.sharedMax == AtLeastOne(sharedMax)
    {
      this.sharedMax := if sharedMax <= 0 then 1 else sharedMax;
      semaphores, instances, origins := [], map[], map[];
    }

    method Configure(provider: string, maxConcurrent: int)
      modifies this
      ensures State() == Configured(old(State()), provider, maxConcurrent)
    {
      var capacity := maxConcurrent;
      if capacity <= 0 {
        capacity := 1;
      }
      instances := instances[provider := |semaphores|];
      semaphores := semaphores + [Semaphore(provider, false, capacity, 0)];
    }

    /** The section of Acquire under the mutex. */
    method LookUp(provider: string, origin: string) returns (own: Option<nat>, shared: nat)
      requires sharedMax > 0
      modifies this
      ensures State() == LookedUp(old(State()), origin, sharedMax)
      ensures origin in origins && shared == origins[origin]
      ensures own == if provider in old(instances) then Some(old(instances)[provider]) else None
    {
      own := if provider in instances then Some(instances[provider]) else None;
      if origin !in origins {
        origins := origins[origin := |semaphores|];
        semaphores := semaphores + [Semaphore(origin, true, sharedMax, 0)];
      }
      shared := origins[origin];
    }
  }

  // ---- requests ----------------------------------------------------------

  /** Where one call of Acquire, or the caller it admitted, stands. */
  datatype Phase =
    | Checking(next: nat, blocked: bool)    // the first availability check, scope by scope
    | Looking                       // the section under the mutex
    | Waiting                       // for a rate token
    | WantsOwn
    | WantsShared
    | Rechecking(next: nat, blocked: bool)  // the check with both permits held
    | Admitted
    | GivingBack(refused: bool)     // both permits still held
    | GivingBackOwn(refused: bool)
    | Done(refused: bool)
  {
    predicate HoldsShared() { Rechecking? || Admitted? || GivingBack? }
    predicate HoldsOwn() { WantsShared? || HoldsShared() || GivingBackOwn? }
    predicate LookedUp() { Waiting? || WantsOwn? || HoldsOwn() }
  }

  datatype Request = Request(provider: string, origin: string, operation: string, own: nat, shared: nat, phase: Phase)

  datatype World = World(table: Table, requests: seq<Request>, rows: map<Key, Row>, now: nat)

  datatype Step =
    | Configure(provider: string, maxConcurrent: int)
    | Store(op: Op)
    | Tick(to: nat)
    | Arrive(provider: string, origin: string, operation: string)
    | Check(r: nat)
    | CheckFails(r: nat)            // a cancelled context or a store that cannot be read
    | LookUp(r: nat)
    | TakeToken(r: nat)
    | TakeOwn(r: nat)
    | TakeShared(r: nat)
    | Cancel(r: nat)
    | Release(r: nat)
    | PutShared(r: nat)
    | PutOwn(r: nat)

  predicate At(w: World, r: nat, phase: Phase) { r < |w.requests| && w.requests[r].phase == phase }

  /** A check looks at the scopes of its operation one after the other, each at
      a moment of its own. */
  predicate Looks(w: World, r: nat) {
    r < |w.requests| && (w.requests[r].phase.Checking? || w.requests[r].phase.Rechecking?)
  }

  /** Where the look at the next scope leaves a check: a disabled one ends it at
      once, a running cooldown refuses it at its end; the cooldown of
      authentication counts for authentication only. */
  function Looked(w: World, request: Request): (after: Phase)
    requires request.phase.Checking? || request.phase.Rechecking?
    ensures request.phase.Checking? ==> after.Checking? || after == Looking || after == Done(true)
    ensures request.phase.Rechecking? ==> after.Rechecking? || after == Admitted || after == GivingBack(true)
  {
    var scopes := ScopesOf(request.operation);
    var refused := if request.phase.Checking? then Done(true) else GivingBack(true);
    if request.phase.next >= |scopes| then refused
    else
      var look := LookAt(w.rows, request.provider, scopes[request.phase.next], w.now);
      var blocked := request.phase.blocked || Blocks(look, request.operation == AUTH);
      if Stops(look) then refused
      else if request.phase.next + 1 < |scopes| then request.phase.(next := request.phase.next + 1, blocked := blocked)
      else if blocked then refused
      else if request.phase.Checking? then Looking else Admitted
  }

  predicate Enabled(w: World, step: Step) {
    match step
    case Configure(_, _) => true
    case Store(op) => Timed(op) ==> w.now <= op.looks.bound && op.looks.Ordered()
    case Tick(to) => w.now <= to
    case Arrive(_, _, _) => true
    case Check(r) => Looks(w, r)
    case CheckFails(r) => Looks(w, r)
    case LookUp(r) => At(w, r, Looking)
    case TakeToken(r) => At(w, r, Waiting)
    case TakeOwn(r) => At(w, r, WantsOwn) && w.requests[r].own < |w.table.semaphores| && !w.table.semaphores[w.requests[r].own].Full()
    case TakeShared(r) => At(w, r, WantsShared) && w.requests[r].shared < |w.table.semaphores| && !w.table.semaphores[w.requests[r].shared].Full()
    case Cancel(r) => At(w, r, Waiting) || At(w, r, WantsOwn) || At(w, r, WantsShared)
    case Release(r) => r < |w.requests| && (w.requests[r].phase in {Admitted, GivingBack(false), GivingBackOwn(false), Done(false)})
    case PutShared(r) => r < |w.requests| && w.requests[r].phase.GivingBack? && Returnable(w.table, w.requests[r].shared)
    case PutOwn(r) => r < |w.requests| && w.requests[r].phase.GivingBackOwn? && Returnable(w.table, w.requests[r].own)
  }

  predicate Returnable(t: Table, s: nat) { s < |t.semaphores| && t.semaphores[s].held > 0 }

  function Moved(w: World, r: nat, phase: Phase): World
    requires r < |w.requests|
  {
    w.(requests := w.requests[r := w.requests[r].(phase := phase)])
  }

  function Took(t: Table, s: nat): Table
    requires s < |t.semaphores|
  {
    t.(semaphores := t.semaphores[s := t.semaphores[s].(held := t.semaphores[s].held + 1)])
  }

  function Put(t: Table, s: nat): Table
    requires Returnable(t, s)
  {
    t.(semaphores := t.semaphores[s := t.semaphores[s].(held := t.semaphores[s].held - 1)])
  }

  function Next(w: World, step: Step, sharedMax: int): World
    requires Enabled(w, step)
  {
    match step
    case Configure(provider, n) => w.(table := Configured(w.table, provider, n))
    case Store(op) => w.(rows := Apply(w.rows, op), now := if Timed(op) then op.looks.third else w.now)
    case Tick(to) => w.(now := to)
    case Arrive(provider, origin, operation) => w.(requests := w.requests + [Request(provider, origin, operation, 0, 0, Checking(0, false))])
    case Check(r) => Moved(w, r, Looked(w, w.requests[r]))
    case CheckFails(r) => Moved(w, r, if w.requests[r].phase.Checking? then Done(true) else GivingBack(true))
    case LookUp(r) =>
      var request := w.requests[r];
      var after := w.(table := LookedUp(w.table, request.origin, sharedMax));
      if request.provider in w.table.instances then
        after.(requests := w.requests[r := request.(own := w.table.instances[request.provider], shared := after.table.origins[request.origin], phase := Waiting)])
      else Moved(after, r, Done(true))
    case TakeToken(r) => Moved(w, r, WantsOwn)
    case TakeOwn(r) => Moved(w.(table := Took(w.table, w.requests[r].own)), r, WantsShared)
    case TakeShared(r) => Moved(w.(table := Took(w.table, w.requests[r].shared)), r, Rechecking(0, false))
    case Cancel(r) => Moved(w, r, if w.requests[r].phase == WantsShared then GivingBackOwn(true) else Done(true))
    case Release(r) => if w.requests[r].phase == Admitted then Moved(w, r, GivingBack(false)) else w
    case PutShared(r) => Moved(w.(table := Put(w.table, w.requests[r].shared)), r, GivingBackOwn(w.requests[r].phase.refused))
    case PutOwn(r) => Moved(w.(table := Put(w.table, w.requests[r].own)), r, Done(w.requests[r].phase.refused))
  }

  function Run(steps: seq<Step>, sharedMax: int): World {
    if steps == [] then World(Table([], map[], map[]), [], map[], 0)
    else
      var before := Run(steps[..|steps| - 1], sharedMax);
      if Enabled(before, steps[|steps| - 1]) then Next(before, steps[|steps| - 1], sharedMax) else before
  }

  function RunFrom(w: World, steps: seq<Step>, sharedMax: int): World {
    if steps == [] then w
    else
      var before := RunFrom(w, steps[..|steps| - 1], sharedMax);
      if Enabled(before, steps[|steps| - 1]) then Next(before, steps[|steps| - 1], sharedMax) else before
  }

  // ---- permits -----------------------------------------------------------

  function ClaimsOf(request: Request, s: nat): nat {
    (if request.phase.HoldsOwn() && request.own == s then 1 else 0) + (if request.phase.HoldsShared() && request.shared == s then 1 else 0)
  }

  /** The permits of a semaphore that requests hold. */
  function Claims(requests: seq<Request>, s: nat): nat {
    if requests == [] then 0 else Claims(requests[..|requests| - 1], s) + ClaimsOf(requests[|requests| - 1], s)
  }

  lemma {:induction false} ClaimsAfter(requests: seq<Request>, r: nat, request: Request, s: nat)
    requires r < |requests|
    ensures Claims(requests[r := request], s) == Claims(requests, s) - ClaimsOf(requests[r], s) + ClaimsOf(request, s)
    ensures Claims(requests, s) >= ClaimsOf(requests[r], s)
  {
    var n := |requests| - 1;
    if r < n {
      ClaimsAfter(requests[..n], r, request, s);
      assert requests[r := request][..n] == requests[..n][r := request];
    } else {
      assert requests[r := request][..n] == requests[..n];
    }
  }

  predicate Placed(request: Request, t: Table) {
    request.phase.LookedUp() ==>
      && request.own < |t.semaphores| && !t.semaphores[request.own].shared
      && request.origin in t.origins && t.origins[request.origin] == request.shared
  }

  /** Every name stands for a semaphore of its kind and capacity. */
  ghost predicate TableFine(t: Table, sharedMax: int) {
    && (forall p | p in t.instances :: t.instances[p] < |t.semaphores| && !t.semaphores[t.instances[p]].shared)
    && (forall o | o in t.origins :: t.origins[o] < |t.semaphores| && t.semaphores[t.origins[o]].shared
                                    && t.semaphores[t.origins[o]].capacity == AtLeastOne(sharedMax))
    && (forall s | 0 <= s < |t.semaphores| :: t.semaphores[s].capacity >= 1)
  }

  /** Permits taken are exactly those requests hold, and never too many. */
  ghost predicate Balanced(t: Table, requests: seq<Request>) {
    forall s: nat | s < |t.semaphores| :: t.semaphores[s].held == Claims(requests, s) <= t.semaphores[s].capacity
  }

  ghost predicate AllPlaced(requests: seq<Request>, t: Table) {
    forall r | 0 <= r < |requests| :: Placed(requests[r], t)
  }

  ghost predicate Inv(w: World, sharedMax: int) {
    TableFine(w.table, sharedMax) && AllPlaced(w.requests, w.table) && Balanced(w.table, w.requests)
    && forall s: nat | s >= |w.table.semaphores| :: Claims(w.requests, s) == 0
  }

  lemma MoveKeeps(w: World, sharedMax: int, r: nat, request: Request, t: Table)
    requires Inv(w, sharedMax) && r < |w.requests|
    requires TableFine(t, sharedMax) && Placed(request, t)
    requires |w.table.semaphores| <= |t.semaphores|
    requires forall i | 0 <= i < |w.requests| :: Placed(w.requests[i], w.table) ==> Placed(w.requests[i], t)
    requires forall s: nat | s < |t.semaphores| ::
               var held := if s < |w.table.semaphores| then w.table.semaphores[s].held else 0;
               t.semaphores[s].held == held - ClaimsOf(w.requests[r], s) + ClaimsOf(request, s) <= t.semaphores[s].capacity
    requires forall s: nat | s >= |t.semaphores| :: ClaimsOf(request, s) == 0
    ensures Inv(World(t, w.requests[r := request], w.rows, w.now), sharedMax)
  {
    forall s: nat
      ensures Claims(w.requests[r := request], s) == Claims(w.requests, s) - ClaimsOf(w.requests[r], s) + ClaimsOf(request, s)
      ensures Claims(w.requests, s) >= ClaimsOf(w.requests[r], s)
    {
      ClaimsAfter(w.requests, r, request, s);
    }
    hide Claims, ClaimsOf, TableFine, Placed;
    var after := w.requests[r := request];
    assert AllPlaced(after, t);
    forall s: nat | s < |t.semaphores| ensures t.semaphores[s].held == Claims(after, s) <= t.semaphores[s].capacity {
      assert Claims(w.requests, s) == if s < |w.table.semaphores| then w.table.semaphores[s].held else 0;
    }
    forall s: nat | s >= |t.semaphores| ensures Claims(after, s) == 0 {
      assert Claims(w.requests, s) == 0;
    }
  }

  lemma AppendKeeps(w: World, sharedMax: int, request: Request)
    requires Inv(w, sharedMax) && request.phase.Checking?
    ensures Inv(w.(requests := w.requests + [request]), sharedMax)
  {
    assert (w.requests + [request])[..|w.requests|] == w.requests;
  }

  lemma TableKeeps(w: World, sharedMax: int, t: Table)
    requires Inv(w, sharedMax) && TableFine(t, sharedMax)
    requires w.table.semaphores <= t.semaphores
    requires forall s | |w.table.semaphores| <= s < |t.semaphores| :: t.semaphores[s].held == 0
    requires forall o | o in w.table.origins :: o in t.origins && t.origins[o] == w.table.origins[o]
    ensures Inv(w.(table := t), sharedMax)
  {
    hide Claims;
    assert AllPlaced(w.requests, t);
  }

  lemma LookUpKeeps(w: World, sharedMax: int, r: nat)
    requires Inv(w, sharedMax) && Enabled(w, LookUp(r))
    ensures Inv(Next(w, LookUp(r), sharedMax), sharedMax)
  {
    var request := w.requests[r];
    var t := LookedUp(w.table, request.origin, sharedMax);
    LookedUpFacts(w.table, request, sharedMax);
    hide Inv, LookedUp, Claims, TableFine, Placed;
    TableKeeps(w, sharedMax, t);
    var after := w.(table := t);
    if request.provider in w.table.instances {
      var next := request.(own := w.table.instances[request.provider], shared := t.origins[request.origin], phase := Waiting);
      ReplaceIdle(after, sharedMax, r, next);
    } else {
      ReplaceIdle(after, sharedMax, r, request.(phase := Done(true)));
    }
  }

  lemma LookedUpFacts(table: Table, request: Request, sharedMax: int)
    requires TableFine(table, sharedMax)
    ensures var t := LookedUp(table, request.origin, sharedMax);
            && TableFine(t, sharedMax) && table.semaphores <= t.semaphores && request.origin in t.origins
            && (forall s | |table.semaphores| <= s < |t.semaphores| :: t.semaphores[s].held == 0)
            && (forall o | o in table.origins :: o in t.origins && t.origins[o] == table.origins[o])
            && Placed(request.(phase := Done(true)), t)
            && (request.provider in table.instances ==>
                  Placed(request.(own := table.instances[request.provider], shared := t.origins[request.origin], phase := Waiting), t))
  {
  }

  lemma ReplaceIdle(w: World, sharedMax: int, r: nat, request: Request)
    requires Inv(w, sharedMax) && r < |w.requests| && Placed(request, w.table)
    requires forall s: nat :: ClaimsOf(request, s) == ClaimsOf(w.requests[r], s)
    ensures Inv(w.(requests := w.requests[r := request]), sharedMax)
  {
    hide Placed;
    forall s: nat ensures Claims(w.requests[r := request], s) == Claims(w.requests, s) {
      ClaimsAfter(w.requests, r, request, s);
    }
    hide Claims, ClaimsOf, TableFine;
    var after := w.requests[r := request];
    assert AllPlaced(after, w.table);
    forall s: nat | s < |w.table.semaphores| ensures w.table.semaphores[s].held == Claims(after, s) {
      assert Claims(after, s) == Claims(w.requests, s);
    }
    assert Balanced(w.table, after);
    forall s: nat | s >= |w.table.semaphores| ensures Claims(after, s) == 0 {
      assert Claims(w.requests, s) == 0;
    }
  }

  lemma HoldersPermit(w: World, sharedMax: int, r: nat)
    requires Inv(w, sharedMax) && r < |w.requests|
    ensures var q := w.requests[r];
            && (q.phase.HoldsOwn() ==> Returnable(w.table, q.own))
            && (q.phase.HoldsShared() ==> Returnable(w.table, q.shared))
  {
    ClaimsAfter(w.requests, r, w.requests[r], w.requests[r].own);
    ClaimsAfter(w.requests, r, w.requests[r], w.requests[r].shared);
    assert Placed(w.requests[r], w.table);
  }

  lemma PermitKeeps(w: World, sharedMax: int, r: nat, s: nat, phase: Phase, t: Table)
    requires Inv(w, sharedMax) && r < |w.requests| && s < |w.table.semaphores|
    requires var q := w.requests[r]; q.phase.LookedUp() && (s == q.own || s == q.shared)
    requires (t == Took(w.table, s) && !w.table.semaphores[s].Full()) || (Returnable(w.table, s) && t == Put(w.table, s))
    requires var q := w.requests[r];
             forall x: nat :: ClaimsOf(q.(phase := phase), x) - ClaimsOf(q, x) == if x == s then t.semaphores[s].held - w.table.semaphores[s].held else 0
    ensures Inv(World(t, w.requests[r := w.requests[r].(phase := phase)], w.rows, w.now), sharedMax)
  {
    hide Claims, Balanced;
    var q := w.requests[r];
    assert Placed(q, w.table);
    PlacesExist(w, sharedMax, r);
    OnlyHeldChanges(w.table, s, t, sharedMax);
    assert Placed(q.(phase := phase), t) by {
      assert Placed(q.(phase := phase), w.table);
    }
    assert forall x: nat | x < |t.semaphores| && x != s :: t.semaphores[x] == w.table.semaphores[x];
    hide Placed, TableFine;
    HeldFits(w, sharedMax);
    MoveKeeps(w, sharedMax, r, q.(phase := phase), t);
  }

  lemma HeldFits(w: World, sharedMax: int)
    requires Inv(w, sharedMax)
    ensures forall x: nat | x < |w.table.semaphores| :: w.table.semaphores[x].held <= w.table.semaphores[x].capacity
  {
    hide Claims;
  }

  /** Places and capacities do not depend on the permits taken. */
  lemma OnlyHeldChanges(before: Table, s: nat, after: Table, sharedMax: int)
    requires s < |before.semaphores| == |after.semaphores| && TableFine(before, sharedMax)
    requires after == before.(semaphores := before.semaphores[s := before.semaphores[s].(held := after.semaphores[s].held)])
    ensures TableFine(after, sharedMax) && forall request :: Placed(request, before) <==> Placed(request, after)
  {
  }

  lemma {:induction false} StepKeeps(w: World, step: Step, sharedMax: int)
    requires Inv(w, sharedMax) && Enabled(w, step)
    ensures Inv(Next(w, step, sharedMax), sharedMax)
  {
    match step
    case Configure(p, n) => TableKeeps(w, sharedMax, Configured(w.table, p, n));
    case Store(_) => {}
    case Tick(_) => {}
    case Arrive(p, o, op) => AppendKeeps(w, sharedMax, Request(p, o, op, 0, 0, Checking(0, false)));
    case LookUp(r) => LookUpKeeps(w, sharedMax, r);
    case TakeOwn(r) =>
      assert Placed(w.requests[r], w.table);
      PermitKeeps(w, sharedMax, r, w.requests[r].own, WantsShared, Took(w.table, w.requests[r].own));
    case TakeShared(r) =>
      assert Placed(w.requests[r], w.table);
      PermitKeeps(w, sharedMax, r, w.requests[r].shared, Rechecking(0, false), Took(w.table, w.requests[r].shared));
    case PutShared(r) =>
      PermitKeeps(w, sharedMax, r, w.requests[r].shared, GivingBackOwn(w.requests[r].phase.refused), Put(w.table, w.requests[r].shared));
    case PutOwn(r) =>
      PermitKeeps(w, sharedMax, r, w.requests[r].own, Done(w.requests[r].phase.refused), Put(w.table, w.requests[r].own));
    case Check(r) => MoveInPlace(w, step, sharedMax, r);
    case CheckFails(r) => MoveInPlace(w, step, sharedMax, r);
    case TakeToken(r) => MoveInPlace(w, step, sharedMax, r);
    case Cancel(r) => MoveInPlace(w, step, sharedMax, r);
    case Release(r) => MoveInPlace(w, step, sharedMax, r);
  }

  lemma MoveInPlace(w: World, step: Step, sharedMax: int, r: nat)
    requires Inv(w, sharedMax) && Enabled(w, step) && step in {Check(r), CheckFails(r), TakeToken(r), Cancel(r), Release(r)}
    ensures Inv(Next(w, step, sharedMax), sharedMax)
  {
    hide Looked;
    assert Placed(w.requests[r], w.table);
    var after := Next(w, step, sharedMax);
    ReplaceIdle(w, sharedMax, r, after.requests[r]);
    assert after == w.(requests := w.requests[r := after.requests[r]]);
  }

  /** In every interleaving, with providers reconfigured at any time, the
      permits taken from each semaphore are exactly those its requests hold,
      at most its capacity. */
  lemma {:induction false} EveryRunBalances(steps: seq<Step>, sharedMax: int)
    ensures Inv(Run(steps, sharedMax), sharedMax)
  {
    hide Inv;
    if steps == [] {
      EmptyIsFine(sharedMax);
    } else {
      EveryRunBalances(steps[..|steps| - 1], sharedMax);
      var before := Run(steps[..|steps| - 1], sharedMax);
      if Enabled(before, steps[|steps| - 1]) {
        StepKeeps(before, steps[|steps| - 1], sharedMax);
      }
    }
  }

  lemma EmptyIsFine(sharedMax: int)
    ensures Inv(World(Table([], map[], map[]), [], map[], 0), sharedMax)
  {
  }

  /** Once no request is under way, however each ended, no permit is out. */
  lemma AllPermitsReturn(steps: seq<Step>, sharedMax: int)
    requires var w := Run(steps, sharedMax); forall r | 0 <= r < |w.requests| :: w.requests[r].phase.Done?
    ensures var w := Run(steps, sharedMax); forall s | 0 <= s < |w.table.semaphores| :: w.table.semaphores[s].held == 0
  {
    hide Run;
    var w := Run(steps, sharedMax);
    EveryRunBalances(steps, sharedMax);
    forall s: nat | s < |w.table.semaphores| ensures w.table.semaphores[s].held == 0 {
      NoClaims(w.requests, s);
    }
  }

  lemma {:induction false} NoClaims(requests: seq<Request>, s: nat)
    requires forall r | 0 <= r < |requests| :: requests[r].phase.Done?
    ensures Claims(requests, s) == 0
  {
    if requests != [] {
      NoClaims(requests[..|requests| - 1], s);
    }
  }

  /** A request whose caller has called release. */
  predicate HasReleased(w: World, r: nat) { r < |w.requests| && w.requests[r].phase in {GivingBack(false), GivingBackOwn(false), Done(false)} }

  /** Once released, a request stays so through every run, and calling release
      again at any point of it changes nothing. */
  lemma {:induction false} SecondReleaseIsIgnored(w: World, steps: seq<Step>, sharedMax: int, r: nat)
    requires HasReleased(w, r)
    ensures var end := RunFrom(w, steps, sharedMax);
            HasReleased(end, r) && Enabled(end, Release(r)) && Next(end, Release(r), sharedMax) == end
  {
    if steps != [] {
      SecondReleaseIsIgnored(w, steps[..|steps| - 1], sharedMax, r);
      var before := RunFrom(w, steps[..|steps| - 1], sharedMax);
      if Enabled(before, steps[|steps| - 1]) {
        StaysReleased(before, steps[|steps| - 1], sharedMax, r);
      }
    }
  }

  lemma StaysReleased(w: World, step: Step, sharedMax: int, r: nat)
    requires HasReleased(w, r) && Enabled(w, step)
    ensures HasReleased(Next(w, step, sharedMax), r)
  {
    hide Looked, LookedUp;
  }

  /** How often a step is taken in a run. */
  function Taken(steps: seq<Step>, sharedMax: int, step: Step): nat {
    if steps == [] then 0
    else
      var before := steps[..|steps| - 1];
      Taken(before, sharedMax, step) + if steps[|steps| - 1] == step && Enabled(Run(before, sharedMax), step) then 1 else 0
  }

  /** No request, refused, cancelled or released however often, gives back
      either of its permits twice. */
  lemma {:induction false} FreedOnce(steps: seq<Step>, sharedMax: int, r: nat)
    ensures var w := Run(steps, sharedMax);
            && Taken(steps, sharedMax, PutShared(r)) <= (if r < |w.requests| && (w.requests[r].phase.GivingBackOwn? || w.requests[r].phase.Done?) then 1 else 0)
            && Taken(steps, sharedMax, PutOwn(r)) <= (if r < |w.requests| && w.requests[r].phase.Done? then 1 else 0)
  {
    if steps != [] {
      var before := steps[..|steps| - 1];
      FreedOnce(before, sharedMax, r);
      if Enabled(Run(before, sharedMax), steps[|steps| - 1]) {
        OnlyForward(Run(before, sharedMax), steps[|steps| - 1], sharedMax, r);
      }
    }
  }

  lemma OnlyForward(w: World, step: Step, sharedMax: int, r: nat)
    requires Enabled(w, step)
    ensures var end := Next(w, step, sharedMax);
            && (r < |w.requests| ==> r < |end.requests|)
            && (r < |w.requests| && w.requests[r].phase.Done? ==> end.requests[r].phase.Done? && step != PutShared(r) && step != PutOwn(r))
            && (r < |w.requests| && w.requests[r].phase.GivingBackOwn? ==>
                  (end.requests[r].phase.GivingBackOwn? || end.requests[r].phase.Done?) && step != PutShared(r))
            && (step == PutShared(r) ==> r < |end.requests| && end.requests[r].phase.GivingBackOwn?)
            && (step == PutOwn(r) ==> r < |end.requests| && end.requests[r].phase.Done?)
  {
    hide Looked, LookedUp;
  }

  /** The requests an origin has admitted. */
  function AdmittedAt(requests: seq<Request>, origin: string): nat {
    if requests == [] then 0
    else
      var q := requests[|requests| - 1];
      AdmittedAt(requests[..|requests| - 1], origin) + if q.phase == Admitted && q.origin == origin then 1 else 0
  }

  /** No origin ever serves more requests at once than the shared maximum,
      whichever providers they belong to. */
  lemma OriginIsNeverCrowded(steps: seq<Step>, sharedMax: int, origin: string)
    ensures AdmittedAt(Run(steps, sharedMax).requests, origin) <= AtLeastOne(sharedMax)
  {
    hide Run;
    EveryRunBalances(steps, sharedMax);
    var w := Run(steps, sharedMax);
    if origin in w.table.origins {
      AdmittedHold(w.requests, w.table, origin, w.table.origins[origin]);
    } else {
      NoneAdmitted(w.requests, w.table, origin);
    }
  }

  lemma {:induction false} AdmittedHold(requests: seq<Request>, t: Table, origin: string, s: nat)
    requires AllPlaced(requests, t) && origin in t.origins && t.origins[origin] == s
    ensures AdmittedAt(requests, origin) <= Claims(requests, s)
  {
    if requests != [] {
      assert Placed(requests[|requests| - 1], t);
      AdmittedHold(requests[..|requests| - 1], t, origin, s);
    }
  }

  lemma {:induction false} NoneAdmitted(requests: seq<Request>, t: Table, origin: string)
    requires AllPlaced(requests, t) && origin !in t.origins
    ensures AdmittedAt(requests, origin) == 0
  {
    if requests != [] {
      assert Placed(requests[|requests| - 1], t);
      NoneAdmitted(requests[..|requests| - 1], t, origin);
    }
  }

  // ---- progress ----------------------------------------------------------

  /** A request that can act without anybody else's help. */
  predicate CanMove(w: World, r: nat) {
    Enabled(w, Check(r)) || Enabled(w, LookUp(r)) || Enabled(w, TakeToken(r)) || Enabled(w, TakeOwn(r)) || Enabled(w, TakeShared(r))
    || (Enabled(w, Release(r)) && w.requests[r].phase == Admitted) || Enabled(w, PutShared(r)) || Enabled(w, PutOwn(r))
  }

  /** Own permits are always taken before shared ones, so requests never wait
      for each other in a circle: as long as any request is unfinished, some
      request can move or is with its caller. */
  lemma NoDeadlock(steps: seq<Step>, sharedMax: int, r: nat)
    requires var w := Run(steps, sharedMax); r < |w.requests| && !w.requests[r].phase.Done?
    ensures exists x: nat :: CanMove(Run(steps, sharedMax), x)
  {
    EveryRunBalances(steps, sharedMax);
    var w := Run(steps, sharedMax);
    hide Run, Looked, Claims, TableFine;
    var q := w.requests[r];
    assert Placed(q, w.table);
    HoldersPermit(w, sharedMax, r);
    if q.phase == WantsOwn && w.table.semaphores[q.own].Full() {
      FullIsClaimed(w, sharedMax, q.own);
      var h := SomeHolder(w.requests, q.own);
      assert Placed(w.requests[h], w.table);
      HolderMoves(w, sharedMax, h);
    } else if q.phase == WantsShared {
      HolderMoves(w, sharedMax, r);
    } else {
      assert CanMove(w, r);
    }
  }

  lemma PlacesExist(w: World, sharedMax: int, r: nat)
    requires Inv(w, sharedMax) && r < |w.requests| && w.requests[r].phase.LookedUp()
    ensures w.requests[r].own < |w.table.semaphores| && w.requests[r].shared < |w.table.semaphores|
  {
    assert Placed(w.requests[r], w.table);
  }

  lemma FullIsClaimed(w: World, sharedMax: int, s: nat)
    requires Inv(w, sharedMax) && s < |w.table.semaphores| && w.table.semaphores[s].Full()
    ensures Claims(w.requests, s) > 0
  {
    hide Claims;
  }

  lemma SharedIsShared(w: World, sharedMax: int, origin: string)
    requires Inv(w, sharedMax) && origin in w.table.origins
    ensures w.table.origins[origin] < |w.table.semaphores| && w.table.semaphores[w.table.origins[origin]].shared
  {
  }

  lemma HolderMoves(w: World, sharedMax: int, r: nat)
    requires Inv(w, sharedMax) && r < |w.requests| && w.requests[r].phase.HoldsOwn()
    ensures exists x: nat :: CanMove(w, x)
  {
    hide Looked, Claims, TableFine;
    var q := w.requests[r];
    assert Placed(q, w.table);
    PlacesExist(w, sharedMax, r);
    HoldersPermit(w, sharedMax, r);
    if q.phase == WantsShared && w.table.semaphores[q.shared].Full() {
      FullIsClaimed(w, sharedMax, q.shared);
      var h := SomeHolder(w.requests, q.shared);
      assert Placed(w.requests[h], w.table);
      HoldersPermit(w, sharedMax, h);
      SharedIsShared(w, sharedMax, q.origin);
      assert w.requests[h].phase.HoldsShared();
      assert CanMove(w, h);
    } else {
      assert CanMove(w, r);
    }
  }

  lemma {:induction false} SomeHolder(requests: seq<Request>, s: nat) returns (h: nat)
    requires Claims(requests, s) > 0
    ensures h < |requests| && ClaimsOf(requests[h], s) > 0
  {
    h := |requests| - 1;
    if ClaimsOf(requests[h], s) == 0 {
      h := SomeHolder(requests[..h], s);
    }
  }

  // ---- admission ---------------------------------------------------------

  /** An operation the cooldown of a scope covers: everything for the scope
      "all", and otherwise the operation of that name. */
  predicate Covers(scope: string, operation: string) { scope == ALL || scope == operation }

  /** Steps that leave the provider's stored state to throttles, failures and
      answers of its own. */
  predicate Undisturbed(steps: seq<Step>, provider: string) {
    forall i | 0 <= i < |steps| && steps[i].Store? ::
      steps[i].op != Retry(provider) && (steps[i].op.Persist? ==> !Transient(steps[i].op.throttle.reason))
  }

  /** A request whose last check has not looked at a scope yet, or has found it
      blocked: it may not be admitted while a cooldown of that scope runs. */
  predicate NotPast(request: Request, which: nat) {
    request.phase != Admitted && (request.phase.Rechecking? && request.phase.next > which ==> request.phase.blocked)
  }

  /** The place of a cooldown's scope among those a check looks at. */
  function Place(scope: string): nat { if scope == ALL then 0 else 2 }

  /** While a cooldown runs, no request it covers is admitted, not even one
      that passed its first check, or the earlier scopes of its last one, before
      the cooldown began: every step of every interleaving leaves a request
      unadmitted whose last check had not looked at the cooldown's scope yet. */
  lemma {:induction false} NoAdmissionDuringCooldown(w: World, key: Key, steps: seq<Step>, sharedMax: int, r: nat)
    requires key in w.rows && Keeps(w.rows[key], w.rows[key].resetAt) && w.rows[key].resetAt > 0
    requires Undisturbed(steps, key.0)
    requires var end := RunFrom(w, steps, sharedMax);
             && end.now < w.rows[key].resetAt
             && r < |end.requests| && end.requests[r].provider == key.0 && Covers(key.1, end.requests[r].operation)
    requires r < |w.requests| ==> NotPast(w.requests[r], Place(key.1))
    ensures var end := RunFrom(w, steps, sharedMax);
            && key in end.rows && Keeps(end.rows[key], w.rows[key].resetAt)
            && NotPast(end.requests[r], Place(key.1))
  {
    if steps != [] {
      var before := RunFrom(w, steps[..|steps| - 1], sharedMax);
      var step := steps[|steps| - 1];
      assert Undisturbed(steps[..|steps| - 1], key.0);
      if Enabled(before, step) {
        var end := Next(before, step, sharedMax);
        RequestsStay(before, step, sharedMax);
        RowsKept(w, key, steps[..|steps| - 1], sharedMax);
        if r < |before.requests| {
          NoAdmissionDuringCooldown(w, key, steps[..|steps| - 1], sharedMax, r);
        }
        RowsKept(w, key, steps, sharedMax);
        NotAdmittedNow(before, key, step, sharedMax, r, w.rows[key].resetAt);
      } else {
        NoAdmissionDuringCooldown(w, key, steps[..|steps| - 1], sharedMax, r);
      }
    }
  }

  lemma RequestsStay(w: World, step: Step, sharedMax: int)
    requires Enabled(w, step)
    ensures var end := Next(w, step, sharedMax);
            && |w.requests| <= |end.requests|
            && (forall r | 0 <= r < |w.requests| :: end.requests[r].provider == w.requests[r].provider && end.requests[r].operation == w.requests[r].operation)
            && w.now <= end.now
  {
    hide Looked, LookedUp;
  }

  lemma {:induction false} RowsKept(w: World, key: Key, steps: seq<Step>, sharedMax: int)
    requires key in w.rows && Keeps(w.rows[key], w.rows[key].resetAt)
    requires Undisturbed(steps, key.0)
    requires RunFrom(w, steps, sharedMax).now < w.rows[key].resetAt
    ensures var end := RunFrom(w, steps, sharedMax); key in end.rows && Keeps(end.rows[key], w.rows[key].resetAt)
  {
    hide Looked, LookedUp, Keeps, Apply;
    if steps != [] {
      var before := RunFrom(w, steps[..|steps| - 1], sharedMax);
      var step := steps[|steps| - 1];
      if Enabled(before, step) {
        RequestsStay(before, step, sharedMax);
      }
      RowsKept(w, key, steps[..|steps| - 1], sharedMax);
      if Enabled(before, step) && step.Store? {
        StepAtKey(before.rows, key, step.op);
        KeptByOne(before.rows[key], key, step.op, w.rows[key].resetAt);
      }
    }
  }

  lemma NotAdmittedNow(w: World, key: Key, step: Step, sharedMax: int, r: nat, resetAt: nat)
    requires Enabled(w, step) && key in w.rows && Keeps(w.rows[key], resetAt) && w.now < resetAt
    requires var end := Next(w, step, sharedMax); r < |end.requests| && end.requests[r].provider == key.0 && Covers(key.1, end.requests[r].operation)
    requires r < |w.requests| ==> NotPast(w.requests[r], Place(key.1))
    ensures NotPast(Next(w, step, sharedMax).requests[r], Place(key.1))
  {
    if step == Check(r) {
      var request := w.requests[r];
      if request.phase.next == Place(key.1) {
        var look := LookAt(w.rows, request.provider, ScopesOf(request.operation)[request.phase.next], w.now);
        assert look.found == Stored(w.rows[key]);
        assert Stops(look) || Blocks(look, request.operation == AUTH);
      }
    } else {
      hide Looked, LookedUp;
    }
  }
}
