/** What each section of the provider answer cache does, in full, and how long
    a stored answer is served (internal/provider/ttlcache.go). */
module LoadRules {
  import opened SingleFlightCache

  /** An answer of the key is cached and has not expired. */
  predicate Cached<V>(w: World<V>, key: string, ttl: int) {
    key in w.cache.entries && w.now < w.cache.entries[key].stored + ttl
  }

  /** Only this caller moved on. */
  ghost predicate MovedTo<V>(before: seq<Caller<V>>, c: nat, phase: Phase<V>, after: seq<Caller<V>>) {
    c < |before| && after == before[c := Caller(before[c].key, before[c].cancelled, phase)]
  }

  /** The entries hold the new answer, apart from those evicted: none while
      they are within the limit, as many as exceed it otherwise, and none newer
      than one that stays unless the empty key is there. */
  ghost predicate StoredWithin<V>(before: map<string, Entry<V>>, e: Stored<V>, evicted: set<string>, limit: nat, after: map<string, Entry<V>>) {
    && after == before[e.key := Entry(e.value, e.at)] - evicted
    && |after| <= limit
    && (evicted == {} || (|after| == limit && evicted <= before.Keys + {e.key}))
    && ("" !in before && e.key != "" ==> OldestGo(before, e, evicted, after))
  }

  predicate OldestGo<V>(before: map<string, Entry<V>>, e: Stored<V>, evicted: set<string>, after: map<string, Entry<V>>) {
    && (forall gone, kept | gone in evicted && gone in before && gone != e.key && kept in before && kept in after && kept != e.key ::
          before[gone].stored <= before[kept].stored)
    && (forall kept | kept in before && kept in after && kept != e.key :: e.key in evicted ==> e.at <= before[kept].stored)
    && (forall gone | gone in evicted && gone in before && gone != e.key :: e.key in after ==> before[gone].stored <= e.at)
  }

  /** A caller that asks is answered from the cache, or starts the fetch of its
      key, or blocks on the fetch under way. An expired entry goes. */
  ghost predicate EnterRule<V>(w: World<V>, c: nat, after: World<V>, ttl: int) {
    && c < |w.callers| && w.callers[c].phase.Entering?
    && after.now == w.now && after.stores == w.stores
    && var key := w.callers[c].key;
       if Cached(w, key, ttl) then
         && MovedTo(w.callers, c, Answered(w.cache.entries[key].value, false, w.now), after.callers)
         && after.cache == w.cache && after.closed == w.closed
       else
         && after.cache.entries == w.cache.entries - {key}
         && if key in w.cache.inFlight then
              && MovedTo(w.callers, c, Blocked(w.cache.inFlight[key]), after.callers)
              && after.cache.inFlight == w.cache.inFlight && after.cache.waiters == w.cache.waiters + 1 && after.closed == w.closed
            else
              && MovedTo(w.callers, c, Fetching(|w.closed|), after.callers)
              && after.cache.inFlight == w.cache.inFlight[key := |w.closed|] && after.cache.waiters == w.cache.waiters
              && after.closed == w.closed + [false]
  }

  /** The fetching caller gets its own answer or failure, the answer is stored
      if it may be, and the waiting callers are woken either way. */
  ghost predicate ReturnRule<V>(w: World<V>, c: nat, value: V, outcome: Outcome, evicted: set<string>, after: World<V>, limit: nat) {
    && c < |w.callers| && w.callers[c].phase.Fetching? && w.callers[c].phase.channel < |w.closed|
    && after.now == w.now
    && MovedTo(w.callers, c, if outcome == Error then Failed(true) else Answered(value, true, w.now), after.callers)
    && after.cache.inFlight == w.cache.inFlight - {w.callers[c].key} && after.cache.waiters == w.cache.waiters
    && after.closed == w.closed[w.callers[c].phase.channel := true]
    && if outcome == Cacheable then
         var e := Stored(w.callers[c].key, value, w.now, ByFetch(c));
         after.stores == w.stores + [e] && StoredWithin(w.cache.entries, e, evicted, limit, after.cache.entries)
       else
         after.stores == w.stores && after.cache.entries == w.cache.entries
  }

  /** A blocked caller goes on when its channel is closed or it is cancelled;
      cancelled, it fails, and otherwise it asks again. */
  ghost predicate LeaveRule<V>(w: World<V>, c: nat, after: World<V>) {
    && c < |w.callers| && w.callers[c].phase.Blocked? && w.callers[c].phase.channel < |w.closed|
    && (w.closed[w.callers[c].phase.channel] || w.callers[c].cancelled)
    && MovedTo(w.callers, c, if w.callers[c].cancelled then Failed(false) else Entering, after.callers)
    && after.cache == Cache(w.cache.entries, w.cache.inFlight, w.cache.waiters - 1)
    && after.closed == w.closed && after.stores == w.stores && after.now == w.now
  }

  ghost predicate OtherRule<V>(w: World<V>, step: Step<V>, after: World<V>, ttl: int, limit: nat) {
    match step
    case Tick(to) => to >= w.now && after == World(w.cache, w.closed, w.callers, w.stores, to)
    case Call(key) => after == World(w.cache, w.closed, w.callers + [Caller(key, false, Entering)], w.stores, w.now)
    case Give(c) =>
      && c < |w.callers|
      && after == World(w.cache, w.closed, w.callers[c := Caller(w.callers[c].key, true, w.callers[c].phase)], w.stores, w.now)
    case Put(key, value, evicted) =>
      var e := Stored(key, value, w.now, ByPut);
      && StoredWithin(w.cache.entries, e, evicted, limit, after.cache.entries)
      && after == World(Cache(after.cache.entries, w.cache.inFlight, w.cache.waiters), w.closed, w.callers, w.stores + [e], w.now)
    case Get(key) =>
      var entries := if Cached(w, key, ttl) then w.cache.entries else w.cache.entries - {key};
      after == World(Cache(entries, w.cache.inFlight, w.cache.waiters), w.closed, w.callers, w.stores, w.now)
    case _ => false
  }

  ghost predicate Rules<V>(w: World<V>, step: Step<V>, after: World<V>, ttl: int, limit: nat) {
    match step
    case Enter(c) => EnterRule(w, c, after, ttl)
    case Return(c, value, outcome, evicted) => ReturnRule(w, c, value, outcome, evicted, after, limit)
    case Leave(c) => LeaveRule(w, c, after)
    case _ => OtherRule(w, step, after, ttl, limit)
  }

  lemma StoreIsWithin<V>(before: map<string, Entry<V>>, e: Stored<V>, evicted: set<string>, limit: nat, after: map<string, Entry<V>>)
    ensures StoredWithin(before, e, evicted, limit, after) <==>
              && MayEvict(before[e.key := Entry(e.value, e.at)], evicted, limit)
              && after == before[e.key := Entry(e.value, e.at)] - evicted
  {
    var full := before[e.key := Entry(e.value, e.at)];
    assert full.Keys == before.Keys + {e.key};
    if evicted <= full.Keys && after == full - evicted {
      Sizes(full, evicted);
      OldestOf(before, e, evicted);
    }
    hide OldestGo;
  }

  lemma Sizes<V>(full: map<string, Entry<V>>, evicted: set<string>)
    requires evicted <= full.Keys
    ensures |full - evicted| == |full| - |evicted|
  {
    assert (full - evicted).Keys == full.Keys - evicted;
    assert |full.Keys| == |full| && |(full - evicted).Keys| == |full - evicted|;
  }

  lemma OldestOf<V>(before: map<string, Entry<V>>, e: Stored<V>, evicted: set<string>)
    requires evicted <= before.Keys + {e.key}
    ensures var full := before[e.key := Entry(e.value, e.at)];
            OldestGo(before, e, evicted, full - evicted) <==>
            forall gone, kept | gone in evicted && kept in full && kept !in evicted :: full[gone].stored <= full[kept].stored
  {
    var full := before[e.key := Entry(e.value, e.at)];
    var after := full - evicted;
    assert forall key | key in full && key != e.key :: key in before && full[key] == before[key];
    if OldestGo(before, e, evicted, after) {
      forall gone, kept | gone in evicted && kept in full && kept !in evicted ensures full[gone].stored <= full[kept].stored {
        assert kept in after;
      }
    }
    if forall gone, kept | gone in evicted && kept in full && kept !in evicted :: full[gone].stored <= full[kept].stored {
      assert forall kept | kept in after :: kept in full && kept !in evicted;
      assert e.key in full && full[e.key].stored == e.at;
    }
  }

  /** A step can be taken, and leads on, exactly as the rules say. */
  lemma StepRules<V>(w: World<V>, step: Step<V>, after: World<V>, ttl: int, limit: nat)
    ensures Enabled(w, step, limit) && after == Next(w, step, ttl, limit) <==> Rules(w, step, after, ttl, limit)
  {
    hide StoredWithin, MayEvict;
    match step
    case Return(c, value, outcome, evicted) =>
      if c < |w.callers| {
        StoreIsWithin(w.cache.entries, Stored(w.callers[c].key, value, w.now, ByFetch(c)), evicted, limit, after.cache.entries);
      }
    case Put(key, value, evicted) => StoreIsWithin(w.cache.entries, Stored(key, value, w.now, ByPut), evicted, limit, after.cache.entries);
    case _ =>
  }

  // ---- how long an answer is served --------------------------------------

  function RunFrom<V>(w: World<V>, steps: seq<Step<V>>, ttl: int, limit: nat): World<V> {
    if steps == [] then w
    else
      var before := RunFrom(w, steps[..|steps| - 1], ttl, limit);
      if Enabled(before, steps[|steps| - 1], limit) then Next(before, steps[|steps| - 1], ttl, limit) else before
  }

  /** The step stores an answer under the key, or evicts the key's entry. */
  predicate Displaces<V>(w: World<V>, step: Step<V>, key: string) {
    match step
    case Put(k, _, evicted) => k == key || key in evicted
    case Return(c, _, outcome, evicted) => outcome == Cacheable && ((c < |w.callers| && w.callers[c].key == key) || key in evicted)
    case _ => false
  }

  ghost predicate LeftAlone<V>(w: World<V>, steps: seq<Step<V>>, key: string, ttl: int, limit: nat) {
    forall i: nat | i < |steps| :: !Displaces(RunFrom(w, steps[..i], ttl, limit), steps[i], key)
  }

  lemma StepKeepsEntry<V>(w: World<V>, step: Step<V>, key: string, ttl: int, limit: nat)
    requires Enabled(w, step, limit) && !Displaces(w, step, key) && key in w.cache.entries
    requires w.now < w.cache.entries[key].stored + ttl
    ensures var after := Next(w, step, ttl, limit);
            after.now >= w.now && key in after.cache.entries && after.cache.entries[key] == w.cache.entries[key]
  {
    var after := Next(w, step, ttl, limit);
    StepRules(w, step, after, ttl, limit);
    hide Next, Enabled, OldestGo, MovedTo;
  }

  lemma ClockAdvances<V>(w: World<V>, step: Step<V>, ttl: int, limit: nat)
    requires Enabled(w, step, limit)
    ensures Next(w, step, ttl, limit).now >= w.now
  {
    StepRules(w, step, Next(w, step, ttl, limit), ttl, limit);
    hide Next, Enabled, OldestGo, MovedTo, StoredWithin;
  }

  /** Whatever callers do, an entry that no step displaces stays until its time
      to live has passed. */
  lemma {:induction false} EntryStays<V>(w: World<V>, steps: seq<Step<V>>, key: string, ttl: int, limit: nat)
    requires key in w.cache.entries && LeftAlone(w, steps, key, ttl, limit)
    requires RunFrom(w, steps, ttl, limit).now < w.cache.entries[key].stored + ttl
    ensures var after := RunFrom(w, steps, ttl, limit); key in after.cache.entries && after.cache.entries[key] == w.cache.entries[key]
  {
    if steps != [] {
      var n := |steps| - 1;
      var before := RunFrom(w, steps[..n], ttl, limit);
      LeftAloneSoFar(w, steps, key, ttl, limit);
      hide Displaces, LeftAlone, Next;
      if Enabled(before, steps[n], limit) {
        ClockAdvances(before, steps[n], ttl, limit);
        EntryStays(w, steps[..n], key, ttl, limit);
        StepKeepsEntry(before, steps[n], key, ttl, limit);
      } else {
        EntryStays(w, steps[..n], key, ttl, limit);
      }
    }
  }

  lemma LeftAloneSoFar<V>(w: World<V>, steps: seq<Step<V>>, key: string, ttl: int, limit: nat)
    requires steps != [] && LeftAlone(w, steps, key, ttl, limit)
    ensures LeftAlone(w, steps[..|steps| - 1], key, ttl, limit)
    ensures !Displaces(RunFrom(w, steps[..|steps| - 1], ttl, limit), steps[|steps| - 1], key)
  {
    var n := |steps| - 1;
    forall i: nat | i < n ensures !Displaces(RunFrom(w, steps[..n][..i], ttl, limit), steps[..n][i], key) {
      assert steps[..n][..i] == steps[..i];
      assert !Displaces(RunFrom(w, steps[..i], ttl, limit), steps[i], key);
    }
  }

  /** Once a fetch has returned an answer that is stored, every caller for its
      key that asks before the time to live has passed gets that answer, and
      none fetches, whatever other callers do: unless the entry was evicted or
      replaced. */
  lemma FetchedAnswerIsShared<V>(w: World<V>, c: nat, value: V, evicted: set<string>, steps: seq<Step<V>>, d: nat, ttl: int, limit: nat)
    requires Enabled(w, Return(c, value, Cacheable, evicted), limit) && w.callers[c].key !in evicted
    requires LeftAlone(Next(w, Return(c, value, Cacheable, evicted), ttl, limit), steps, w.callers[c].key, ttl, limit)
    requires var after := RunFrom(Next(w, Return(c, value, Cacheable, evicted), ttl, limit), steps, ttl, limit);
             d < |after.callers| && after.callers[d].phase.Entering? && after.callers[d].key == w.callers[c].key && after.now < w.now + ttl
    ensures var after := RunFrom(Next(w, Return(c, value, Cacheable, evicted), ttl, limit), steps, ttl, limit);
            var answered := Next(after, Step<V>.Enter(d), ttl, limit);
            && answered.callers == after.callers[d := after.callers[d].(phase := Answered(value, false, after.now))]
            && answered.cache == after.cache
  {
    var returned := Next(w, Return(c, value, Cacheable, evicted), ttl, limit);
    var key := w.callers[c].key;
    StepRules(w, Return(c, value, Cacheable, evicted), returned, ttl, limit);
    assert key in returned.cache.entries && returned.cache.entries[key] == Entry(value, w.now);
    var after := RunFrom(returned, steps, ttl, limit);
    hide Next, RunFrom, LeftAlone;
    EntryStays(returned, steps, key, ttl, limit);
    assert Enabled(after, Step<V>.Enter(d), limit);
    hide Enabled;
    StepRules(after, Step<V>.Enter(d), Next(after, Step<V>.Enter(d), ttl, limit), ttl, limit);
  }
}
