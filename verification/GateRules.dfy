/** What each step of the permit gate does, and that a request nothing stands
    against is admitted (internal/provider/limiter.go:72-135). */
module GateRules {
  import opened ProviderState
  import opened GatePermits

  /** A scope that is disabled ends a check at once. */
  predicate Disabled(w: World, provider: string, scope: string) {
    (provider, scope) in w.rows && w.rows[(provider, scope)].disabled
  }

  /** A scope in a cooldown; that of authentication counts for authentication. */
  predicate Cooling(w: World, provider: string, scope: string, operation: string) {
    && (provider, scope) in w.rows && w.rows[(provider, scope)].remaining <= 0 && w.rows[(provider, scope)].resetAt > w.now
    && (scope == AUTH ==> operation == AUTH)
  }

  /** Only this request moved on, to a phase. */
  predicate MovesTo(w: World, r: nat, phase: Phase, after: World) {
    && r < |w.requests|
    && after.requests == w.requests[r := Request(w.requests[r].provider, w.requests[r].origin, w.requests[r].operation,
                                                 w.requests[r].own, w.requests[r].shared, phase)]
    && after.rows == w.rows && after.now == w.now
  }

  /** The permits of semaphore s change by d, and nothing else in the table. */
  predicate Permits(w: World, s: nat, d: int, after: World) {
    && s < |w.table.semaphores| && w.table.semaphores[s].held + d >= 0
    && after.table.instances == w.table.instances && after.table.origins == w.table.origins
    && var x := w.table.semaphores[s];
       after.table.semaphores == w.table.semaphores[s := Semaphore(x.name, x.shared, x.capacity, x.held + d)]
  }

  /** A check looks at all of the provider, at authentication and at the
      operation, in this order; a disabled scope refuses at once, a cooldown at
      the end. */
  ghost predicate CheckRule(w: World, r: nat, after: World) {
    && r < |w.requests| && (w.requests[r].phase.Checking? || w.requests[r].phase.Rechecking?) && after.table == w.table
    && var request, first, n := w.requests[r], w.requests[r].phase.Checking?, w.requests[r].phase.next;
       var scope := if n == 0 then ALL else if n == 1 then AUTH else request.operation;
       var blocked := request.phase.blocked || Cooling(w, request.provider, scope, request.operation);
       if n > 2 || Disabled(w, request.provider, scope) || (n == 2 && blocked) then MovesTo(w, r, if first then Done(true) else GivingBack(true), after)
       else if n == 2 then MovesTo(w, r, if first then Looking else Admitted, after)
       else MovesTo(w, r, if first then Checking(n + 1, blocked) else Rechecking(n + 1, blocked), after)
  }

  /** The section under the mutex: an unknown provider is refused; the origin
      gets its semaphore on first use. */
  ghost predicate LookUpRule(w: World, r: nat, after: World, sharedMax: int) {
    && r < |w.requests| && w.requests[r].phase == Looking && after.rows == w.rows && after.now == w.now
    && var request := w.requests[r];
       && after.table.instances == w.table.instances
       && (request.origin in w.table.origins ==> after.table == w.table)
       && (request.origin !in w.table.origins ==>
             && after.table.origins == w.table.origins[request.origin := |w.table.semaphores|]
             && after.table.semaphores == w.table.semaphores + [Semaphore(request.origin, true, if sharedMax > 0 then sharedMax else 1, 0)])
       && request.origin in after.table.origins
       && after.requests == w.requests[r :=
            if request.provider in w.table.instances then
              Request(request.provider, request.origin, request.operation, w.table.instances[request.provider], after.table.origins[request.origin], Waiting)
            else Request(request.provider, request.origin, request.operation, request.own, request.shared, Done(true))]
  }

  predicate Stands(w: World, r: nat, phase: Phase) { r < |w.requests| && w.requests[r].phase == phase }

  /** Taking a permit needs one that is free; giving up and giving back return
      what the request holds, the shared permit first. */
  ghost predicate PermitRule(w: World, step: Step, after: World) {
    match step
    case TakeToken(r) => Stands(w, r, Waiting) && MovesTo(w, r, WantsOwn, after) && after.table == w.table
    case TakeOwn(r) =>
      && Stands(w, r, WantsOwn) && MovesTo(w, r, WantsShared, after) && Permits(w, w.requests[r].own, 1, after)
      && w.table.semaphores[w.requests[r].own].held < w.table.semaphores[w.requests[r].own].capacity
    case TakeShared(r) =>
      && Stands(w, r, WantsShared) && MovesTo(w, r, Rechecking(0, false), after) && Permits(w, w.requests[r].shared, 1, after)
      && w.table.semaphores[w.requests[r].shared].held < w.table.semaphores[w.requests[r].shared].capacity
    case Cancel(r) =>
      && (Stands(w, r, Waiting) || Stands(w, r, WantsOwn) || Stands(w, r, WantsShared)) && after.table == w.table
      && MovesTo(w, r, if w.requests[r].phase == WantsShared then GivingBackOwn(true) else Done(true), after)
    case Release(r) =>
      && (Stands(w, r, Admitted) || Stands(w, r, GivingBack(false)) || Stands(w, r, GivingBackOwn(false)) || Stands(w, r, Done(false)))
      && (if Stands(w, r, Admitted) then MovesTo(w, r, GivingBack(false), after) && after.table == w.table else after == w)
    case PutShared(r) =>
      && (Stands(w, r, GivingBack(true)) || Stands(w, r, GivingBack(false))) && Permits(w, w.requests[r].shared, -1, after)
      && MovesTo(w, r, GivingBackOwn(Stands(w, r, GivingBack(true))), after)
    case PutOwn(r) =>
      && (Stands(w, r, GivingBackOwn(true)) || Stands(w, r, GivingBackOwn(false))) && Permits(w, w.requests[r].own, -1, after)
      && MovesTo(w, r, Done(Stands(w, r, GivingBackOwn(true))), after)
    case _ => false
  }

  ghost predicate Rules(w: World, step: Step, after: World, sharedMax: int) {
    match step
    case Configure(provider, n) =>
      && after.table.semaphores == w.table.semaphores + [Semaphore(provider, false, if n > 0 then n else 1, 0)]
      && after.table.instances == w.table.instances[provider := |w.table.semaphores|] && after.table.origins == w.table.origins
      && after.requests == w.requests && after.rows == w.rows && after.now == w.now
    case Store(op) =>
      && (Timed(op) ==> w.now <= op.looks.bound && op.looks.Ordered())
      && after == World(w.table, w.requests, Apply(w.rows, op), if Timed(op) then op.looks.third else w.now)
    case Tick(to) => to >= w.now && after == World(w.table, w.requests, w.rows, to)
    case Arrive(provider, origin, operation) =>
      after == World(w.table, w.requests + [Request(provider, origin, operation, 0, 0, Checking(0, false))], w.rows, w.now)
    case Check(r) => CheckRule(w, r, after)
    case CheckFails(r) =>
      && r < |w.requests| && (w.requests[r].phase.Checking? || w.requests[r].phase.Rechecking?) && after.table == w.table
      && MovesTo(w, r, if w.requests[r].phase.Checking? then Done(true) else GivingBack(true), after)
    case LookUp(r) => LookUpRule(w, r, after, sharedMax)
    case _ => PermitRule(w, step, after)
  }

  lemma CheckStep(w: World, r: nat, after: World, sharedMax: int)
    ensures Enabled(w, Check(r)) && after == Next(w, Check(r), sharedMax) <==> CheckRule(w, r, after)
  {
  }

  lemma LookUpStep(w: World, r: nat, after: World, sharedMax: int)
    ensures Enabled(w, LookUp(r)) && after == Next(w, LookUp(r), sharedMax) <==> LookUpRule(w, r, after, sharedMax)
  {
  }

  lemma PermitStep(w: World, step: Step, after: World, sharedMax: int)
    requires step.TakeToken? || step.TakeOwn? || step.TakeShared? || step.Cancel? || step.Release? || step.PutShared? || step.PutOwn?
    ensures Enabled(w, step) && after == Next(w, step, sharedMax) <==> PermitRule(w, step, after)
  {
  }

  /** A step of the gate can be taken, and leads on, exactly as the rules say. */
  lemma StepRules(w: World, step: Step, after: World, sharedMax: int)
    ensures Enabled(w, step) && after == Next(w, step, sharedMax) <==> Rules(w, step, after, sharedMax)
  {
    match step
    case Check(r) => CheckStep(w, r, after, sharedMax);
    case LookUp(r) => LookUpStep(w, r, after, sharedMax);
    case Configure(_, _) =>
    case Store(_) => hide Apply;
    case Tick(_) =>
    case Arrive(_, _, _) =>
    case CheckFails(_) =>
    case _ => PermitStep(w, step, after, sharedMax);
  }

  // ---- a request that nothing stands against -----------------------------

  /** No scope of the operation is disabled or in a cooldown. */
  predicate Open(w: World, provider: string, operation: string) {
    forall scope | scope in [ALL, AUTH, operation] :: !Disabled(w, provider, scope) && !Cooling(w, provider, scope, operation)
  }

  /** The semaphore has a permit to give. */
  predicate Free(t: Table, s: nat) { s < |t.semaphores| && t.semaphores[s].held < t.semaphores[s].capacity }

  lemma OneMore(w: World, steps: seq<Step>, step: Step, sharedMax: int)
    requires Enabled(RunFrom(w, steps, sharedMax), step)
    ensures RunFrom(w, steps + [step], sharedMax) == Next(RunFrom(w, steps, sharedMax), step, sharedMax)
  {
    assert (steps + [step])[..|steps|] == steps;
  }

  /** Three looks pass a check. */
  lemma CheckPasses(w: World, steps: seq<Step>, r: nat, sharedMax: int)
    requires var v := RunFrom(w, steps, sharedMax);
             && r < |v.requests| && v.requests[r].phase in {Checking(0, false), Rechecking(0, false)}
             && Open(v, v.requests[r].provider, v.requests[r].operation)
    ensures var v, after := RunFrom(w, steps, sharedMax), RunFrom(w, steps + [Check(r)] + [Check(r)] + [Check(r)], sharedMax);
            MovesTo(v, r, if v.requests[r].phase == Checking(0, false) then Looking else Admitted, after) && after.table == v.table
  {
    hide RunFrom, Next, Enabled;
    var v, once := RunFrom(w, steps, sharedMax), steps + [Check(r)];
    var twice := once + [Check(r)];
    LookPasses(w, steps, r, sharedMax);
    LookPasses(w, once, r, sharedMax);
    LookPasses(w, twice, r, sharedMax);
  }

  lemma LookPasses(w: World, steps: seq<Step>, r: nat, sharedMax: int)
    requires var v := RunFrom(w, steps, sharedMax);
             && r < |v.requests| && (v.requests[r].phase.Checking? || v.requests[r].phase.Rechecking?)
             && v.requests[r].phase.next < 3 && !v.requests[r].phase.blocked && Open(v, v.requests[r].provider, v.requests[r].operation)
    ensures var v, after := RunFrom(w, steps, sharedMax), RunFrom(w, steps + [Check(r)], sharedMax);
            var n, first := v.requests[r].phase.next, v.requests[r].phase.Checking?;
            && MovesTo(v, r, if n == 2 then (if first then Looking else Admitted) else if first then Checking(n + 1, false) else Rechecking(n + 1, false), after)
            && after.table == v.table
  {
    var v := RunFrom(w, steps, sharedMax);
    assert Enabled(v, Check(r));
    OneMore(w, steps, Check(r), sharedMax);
    StepRules(v, Check(r), Next(v, Check(r), sharedMax), sharedMax);
  }

  /** If no scope stands against it, its provider is configured, and both its
      semaphores have a permit, a request that arrives can be admitted at once,
      without a step of anybody else. */
  lemma OpenRequestIsAdmitted(w: World, provider: string, origin: string, operation: string, sharedMax: int) returns (steps: seq<Step>)
    requires Open(w, provider, operation)
    requires provider in w.table.instances && Free(w.table, w.table.instances[provider])
    requires origin in w.table.origins ==> Free(w.table, w.table.origins[origin]) && w.table.origins[origin] != w.table.instances[provider]
    ensures var after, r := RunFrom(w, steps, sharedMax), |w.requests|;
            && |after.requests| == r + 1 && after.requests[..r] == w.requests && after.rows == w.rows && after.now == w.now
            && origin in after.table.origins
            && after.requests[r] == Request(provider, origin, operation, w.table.instances[provider], after.table.origins[origin], Admitted)
  {
    hide RunFrom, Next, Enabled, Open, Disabled, Cooling;
    var r := |w.requests|;
    var arrived := [Arrive(provider, origin, operation)];
    Arrives(w, provider, origin, operation, sharedMax);
    CheckPasses(w, arrived, r, sharedMax);
    var checked := arrived + [Check(r)] + [Check(r)] + [Check(r)];
    var held := TakesPermits(w, checked, r, sharedMax);
    OpenStays(w, RunFrom(w, held, sharedMax), provider, operation);
    CheckPasses(w, held, r, sharedMax);
    steps := held + [Check(r)] + [Check(r)] + [Check(r)];
  }

  lemma Arrives(w: World, provider: string, origin: string, operation: string, sharedMax: int)
    ensures RunFrom(w, [Arrive(provider, origin, operation)], sharedMax) ==
            World(w.table, w.requests + [Request(provider, origin, operation, 0, 0, Checking(0, false))], w.rows, w.now)
    ensures Open(w, provider, operation) ==> Open(RunFrom(w, [Arrive(provider, origin, operation)], sharedMax), provider, operation)
  {
    assert RunFrom(w, [], sharedMax) == w && [] + [Arrive(provider, origin, operation)] == [Arrive(provider, origin, operation)];
    OneMore(w, [], Arrive(provider, origin, operation), sharedMax);
  }

  lemma OpenStays(w: World, v: World, provider: string, operation: string)
    requires Open(w, provider, operation) && v.rows == w.rows && v.now == w.now
    ensures Open(v, provider, operation)
  {
  }

  /** From the lookup to both permits. */
  lemma TakesPermits(w: World, steps: seq<Step>, r: nat, sharedMax: int) returns (more: seq<Step>)
    requires var v := RunFrom(w, steps, sharedMax);
             && r < |v.requests| && v.requests[r].phase == Looking
             && v.requests[r].provider in v.table.instances && Free(v.table, v.table.instances[v.requests[r].provider])
             && (v.requests[r].origin in v.table.origins ==>
                   Free(v.table, v.table.origins[v.requests[r].origin]) && v.table.origins[v.requests[r].origin] != v.table.instances[v.requests[r].provider])
    ensures var v, after := RunFrom(w, steps, sharedMax), RunFrom(w, more, sharedMax);
            var request := v.requests[r];
            && request.origin in after.table.origins
            && after.requests == v.requests[r := Request(request.provider, request.origin, request.operation,
                                                         v.table.instances[request.provider], after.table.origins[request.origin], Rechecking(0, false))]
            && after.rows == v.rows && after.now == v.now
  {
    hide RunFrom;
    var v := RunFrom(w, steps, sharedMax);
    OneMore(w, steps, LookUp(r), sharedMax);
    var looked := steps + [LookUp(r)];
    OneMore(w, looked, TakeToken(r), sharedMax);
    var token := looked + [TakeToken(r)];
    OneMore(w, token, TakeOwn(r), sharedMax);
    var own := token + [TakeOwn(r)];
    OneMore(w, own, TakeShared(r), sharedMax);
    more := own + [TakeShared(r)];
  }
}
