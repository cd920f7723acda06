/** The provider answer cache: entries expire after a time to live, the oldest
    are evicted beyond a limit, and concurrent callers for one key share one
    fetch (internal/provider/ttlcache.go). */
module SingleFlightCache {
  import opened Text
  import Sorting

  datatype Entry<V> = Entry(value: V, stored: nat)

  /** What the mutex guards: the entries, the channel of each fetch under way,
      and the number of callers blocked on one. */
  datatype Cache<V> = Cache(entries: map<string, Entry<V>>, inFlight: map<string, nat>, waiters: int)

  predicate Live<V>(entry: Entry<V>, now: nat, ttl: int) { now < entry.stored + ttl }

  predicate Hits<V>(entries: map<string, Entry<V>>, key: string, now: nat, ttl: int) {
    key in entries && Live(entries[key], now, ttl)
  }

  /** A lookup forgets an expired entry. */
  function AfterLookup<V>(entries: map<string, Entry<V>>, key: string, now: nat, ttl: int): map<string, Entry<V>> {
    if key in entries && !Live(entries[key], now, ttl) then entries - {key} else entries
  }

  /** The entries a store may evict from a full cache: exactly as many as
      exceed the limit and, unless the empty key is cached, none newer than an
      entry that stays. */
  predicate MayEvict<V>(entries: map<string, Entry<V>>, evicted: set<string>, limit: nat) {
    && evicted <= entries.Keys
    && |evicted| == (if |entries| > limit then |entries| - limit else 0)
    && ("" !in entries ==> forall gone, kept | gone in evicted && kept in entries && kept !in evicted :: entries[gone].stored <= entries[kept].stored)
  }

  // ---- finding the oldest entry ------------------------------------------

  /** One pass over the entries in some order, as the eviction loop makes it:
      the empty key stands for "none yet". */
  function Scan<V>(entries: map<string, Entry<V>>, order: seq<string>, best: string): (r: string)
    requires best == "" || best in entries
    requires forall key | key in order :: key in entries
    ensures r == best || r in entries
  {
    if order == [] then best
    else if best == "" || entries[order[0]].stored < entries[best].stored then Scan(entries, order[1..], order[0])
    else Scan(entries, order[1..], best)
  }

  predicate IsOldest<V>(entries: map<string, Entry<V>>, key: string) {
    key in entries && forall other | other in entries :: entries[key].stored <= entries[other].stored
  }

  /** The order visits every entry once. */
  ghost predicate Visits<V>(entries: map<string, Entry<V>>, order: seq<string>) {
    (forall key :: key in order <==> key in entries) && forall i, j | 0 <= i < j < |order| :: order[i] != order[j]
  }

  lemma {:induction false} ScanFindsLeast<V>(entries: map<string, Entry<V>>, order: seq<string>, best: string)
    requires forall key | key in order :: key in entries
    requires "" !in order && best != "" && best in entries
    ensures var r := Scan(entries, order, best);
            && (r == best || r in order) && r in entries && r != ""
            && entries[r].stored <= entries[best].stored
            && forall key | key in order :: entries[r].stored <= entries[key].stored
  {
    if order != [] {
      assert order == [order[0]] + order[1..];
      ScanFindsLeast(entries, order[1..], if entries[order[0]].stored < entries[best].stored then order[0] else best);
    }
  }

  lemma ScanFromNone<V>(entries: map<string, Entry<V>>, order: seq<string>)
    requires forall key | key in order :: key in entries
    requires "" !in order && order != []
    ensures var r := Scan(entries, order, "");
            r in order && r in entries && forall key | key in order :: entries[r].stored <= entries[key].stored
  {
    assert order == [order[0]] + order[1..];
    ScanFindsLeast(entries, order[1..], order[0]);
  }

  lemma {:induction false} ScanSplit<V>(entries: map<string, Entry<V>>, a: seq<string>, b: seq<string>, best: string)
    requires best == "" || best in entries
    requires (forall key | key in a :: key in entries) && forall key | key in b :: key in entries
    ensures Scan(entries, a + b, best) == Scan(entries, b, Scan(entries, a, best))
  {
    if a == [] {
      assert a + b == b;
    } else {
      assert (a + b)[1..] == a[1..] + b && (a + b)[0] == a[0] && a[0] in a;
      ScanSplit(entries, a[1..], b, if best == "" || entries[a[0]].stored < entries[best].stored then a[0] else best);
    }
  }

  /** The empty key is older than every other entry. */
  predicate EmptyKeyOldest<V>(entries: map<string, Entry<V>>) {
    "" in entries && forall other | other in entries && other != "" :: entries[""].stored < entries[other].stored
  }

  /** A pass picks a least recently stored entry exactly when the empty key is
      not alone in being oldest, or happens to be visited last. */
  lemma ScanFindsOldestExactly<V>(entries: map<string, Entry<V>>, order: seq<string>)
    requires Visits(entries, order) && order != []
    ensures Scan(entries, order, "") in entries
    ensures IsOldest(entries, Scan(entries, order, "")) <==> (EmptyKeyOldest(entries) ==> order[|order| - 1] == "")
  {
    if "" !in order {
      ScanFromNone(entries, order);
    } else {
      var i :| 0 <= i < |order| && order[i] == "";
      var earlier, later := order[..i], order[i + 1..];
      hide Visits, IsOldest, EmptyKeyOldest, Scan;
      assert order == earlier + ([""] + later);
      ScanAround(entries, earlier, later);
    }
  }

  /** The empty key is oldest and visited first: the pass picks the newer one. */
  lemma ScanPicksNewer<V>(older: V, newer: V)
    ensures var entries := map["" := Entry(older, 1), "b" := Entry(newer, 2)];
            Visits(entries, ["", "b"]) && Scan(entries, ["", "b"], "") == "b" && !IsOldest(entries, "b")
  {
    var entries := map["" := Entry(older, 1), "b" := Entry(newer, 2)];
    assert ["", "b"][1..] == ["b"] && ["b"][1..] == [];
    assert "" in entries && entries[""].stored < entries["b"].stored;
    assert Scan(entries, [], "b") == "b" && Scan(entries, ["b"], "") == "b";
  }

  lemma ScanAround<V>(entries: map<string, Entry<V>>, earlier: seq<string>, later: seq<string>)
    requires Visits(entries, earlier + ([""] + later))
    ensures var order := earlier + ([""] + later);
            var r := Scan(entries, order, "");
            r in entries && (IsOldest(entries, r) <==> (EmptyKeyOldest(entries) ==> order[|order| - 1] == ""))
  {
    VisitsAround(entries, earlier, later);
    hide Visits, IsOldest, EmptyKeyOldest;
    ScanSplit(entries, earlier, [""] + later, "");
    if earlier != [] {
      ScanFromNone(entries, earlier);
    }
    ScanPastEmpty(entries, earlier, later);
  }

  lemma VisitsAround<V>(entries: map<string, Entry<V>>, earlier: seq<string>, later: seq<string>)
    requires Visits(entries, earlier + ([""] + later))
    ensures forall key :: key in entries <==> key in earlier || key == "" || key in later
    ensures "" !in earlier && "" !in later
    ensures var order := earlier + ([""] + later); order[|order| - 1] == "" <==> later == []
  {
    var order := earlier + ([""] + later);
    assert order[|earlier|] == "";
    assert forall i | 0 <= i < |earlier| :: order[i] == earlier[i];
    assert forall i | 0 <= i < |later| :: order[|earlier| + 1 + i] == later[i];
    assert forall key :: key in order <==> key in earlier || key == "" || key in later;
  }

  lemma ScanPastEmpty<V>(entries: map<string, Entry<V>>, earlier: seq<string>, later: seq<string>)
    requires forall key :: key in entries <==> key in earlier || key == "" || key in later
    requires "" !in earlier && "" !in later
    requires earlier != [] ==> Least(entries, earlier, Scan(entries, earlier, ""))
    ensures var r := Scan(entries, [""] + later, Scan(entries, earlier, ""));
            r in entries && (IsOldest(entries, r) <==> (EmptyKeyOldest(entries) ==> later == []))
  {
    var before := Scan(entries, earlier, "");
    var r := Scan(entries, [""] + later, before);
    assert ([""] + later)[1..] == later;
    if earlier == [] || entries[""].stored < entries[before].stored {
      if later != [] {
        ScanFromNone(entries, later);
        assert r == Scan(entries, later, "");
        assert entries[""].stored < entries[r].stored <==> EmptyKeyOldest(entries);
      }
    } else {
      ScanFindsLeast(entries, later, before);
    }
  }

  predicate Least<V>(entries: map<string, Entry<V>>, keys: seq<string>, r: string)
    requires forall key | key in keys :: key in entries
  {
    r in keys && forall key | key in keys :: entries[r].stored <= entries[key].stored
  }

  // ---- the cache object --------------------------------------------------

  datatype Entered<V> = Hit(value: V) | Fetch(channel: nat) | Busy(channel: nat)

  /** The first section of Load: a live entry answers at once; otherwise the
      caller fetches, or waits for the fetch under way. */
  function EnterResult<V>(c: Cache<V>, key: string, now: nat, ttl: int, channel: nat): Entered<V> {
    if Hits(c.entries, key, now, ttl) then Hit(c.entries[key].value)
    else if key in c.inFlight then Busy(c.inFlight[key])
    else Fetch(channel)
  }

  function AfterEnter<V>(c: Cache<V>, key: string, now: nat, ttl: int, channel: nat): Cache<V> {
    var entries := AfterLookup(c.entries, key, now, ttl);
    match EnterResult(c, key, now, ttl, channel)
    case Hit(_) => c.(entries := entries)
    case Fetch(own) => Cache(entries, c.inFlight[key := own], c.waiters)
    case Busy(_) => Cache(entries, c.inFlight, c.waiters + 1)
  }

  function AfterStore<V>(c: Cache<V>, key: string, value: V, now: nat, evicted: set<string>): Cache<V> {
    c.(entries := c.entries[key := Entry(value, now)] - evicted)
  }

  /** Evicting one by one, the oldest of what is left each time. */
  ghost predicate SoFar<V>(full: map<string, Entry<V>>, evicted: set<string>, limit: nat) {
    && evicted <= full.Keys
    && |full - evicted| + |evicted| == |full|
    && (evicted != {} ==> |full - evicted| >= limit)
    && ("" !in full ==> forall gone, kept | gone in evicted && kept in full && kept !in evicted :: full[gone].stored <= full[kept].stored)
  }

  lemma EvictOneMore<V>(full: map<string, Entry<V>>, evicted: set<string>, key: string, limit: nat)
    requires SoFar(full, evicted, limit) && |full - evicted| > limit
    requires key in full - evicted && ("" !in full - evicted ==> IsOldest(full - evicted, key))
    ensures SoFar(full, evicted + {key}, limit) && full - evicted - {key} == full - (evicted + {key})
    ensures |full - evicted - {key}| < |full - evicted|
  {
    var before, after := full - evicted, full - (evicted + {key});
    assert before - {key} == after;
    assert after.Keys == before.Keys - {key};
    assert |before.Keys| == |before| && |after.Keys| == |after|;
    if "" !in full {
      forall gone, kept | gone in evicted + {key} && kept in full && kept !in evicted + {key}
        ensures full[gone].stored <= full[kept].stored
      {
        assert kept in before;
      }
    }
  }

  class TTLCache<V> {
    const ttl: int
    const limit: nat
    var entries: map<string, Entry<V>>
    var inFlight: map<string, nat>
    var waiters: int

    ghost function State(): Cache<V>
      reads this
    {
      Cache(entries, inFlight, waiters)
    }

    constructor (ttl: int, limit: nat)
      ensures State() == Cache(map[], map[], 0) && this.ttl == ttl && this.limit == limit
    {
      this.ttl, this.limit := ttl, limit;
      entries, inFlight, waiters := map[], map[], 0;
    }

    method LookupLocked(key: string, now: nat) returns (value: Option<V>)
      modifies this
      ensures State() == old(State()).(entries := AfterLookup(old(entries), key, now, ttl))
      ensures value == if Hits(old(entries), key, now, ttl) then Some(old(entries)[key].value) else None
    {
      if key !in entries {
        return None;
      }
      if !(now < entries[key].stored + ttl) {
        entries := entries - {key};
        return None;
      }
      value := Some(entries[key].value);
    }

    /** Goes over the entries in an arbitrary order. */
    method Oldest(now: nat) returns (key: string)
      requires entries != map[]
      ensures key in entries
      ensures "" !in entries ==> IsOldest(entries, key)
    {
      var left := entries.Keys;
      assert entries.Keys != {} by {
        assert entries.Keys == {} ==> entries == map[];
      }
      var oldest := now;
      key := "";
      while left != {}
        invariant left <= entries.Keys
        invariant left == entries.Keys ==> key == ""
        invariant left != entries.Keys ==> key in entries && oldest == entries[key].stored
        invariant "" !in entries && left != entries.Keys ==> forall other | other in entries && other !in left :: oldest <= entries[other].stored
        decreases |left|
      {
        ghost var some := Sorting.SomeMember(left);
        var candidate :| candidate in left;
        if key == "" || entries[candidate].stored < oldest {
          key, oldest := candidate, entries[candidate].stored;
        }
        left := left - {candidate};
      }
    }

    method StoreLocked(key: string, value: V, now: nat) returns (ghost evicted: set<string>)
      modifies this
      ensures MayEvict(old(entries)[key := Entry(value, now)], evicted, limit)
      ensures State() == AfterStore(old(State()), key, value, now, evicted)
      ensures |entries| <= limit
    {
      entries := entries[key := Entry(value, now)];
      ghost var full := entries;
      evicted := {};
      assert full - {} == full;
      while |entries| > limit
        invariant inFlight == old(inFlight) && waiters == old(waiters)
        invariant entries == full - evicted && SoFar(full, evicted, limit)
        decreases |entries|
      {
        var oldestKey := Oldest(now);
        EvictOneMore(full, evicted, oldestKey, limit);
        evicted := evicted + {oldestKey};
        entries := entries - {oldestKey};
      }
    }

    /** The first section of Load. */
    method Enter(key: string, now: nat, channel: nat) returns (r: Entered<V>)
      modifies this
      ensures r == EnterResult(old(State()), key, now, ttl, channel)
      ensures State() == AfterEnter(old(State()), key, now, ttl, channel)
    {
      var value := LookupLocked(key, now);
      if value.Some? {
        return Hit(value.value);
      }
      if key !in inFlight {
        inFlight := inFlight[key := channel];
        return Fetch(channel);
      }
      waiters := waiters + 1;
      r := Busy(inFlight[key]);
    }

    /** The section after the fetch. */
    method Finish(key: string, value: V, store: bool, now: nat) returns (ghost evicted: set<string>)
      modifies this
      ensures if store then MayEvict(old(entries)[key := Entry(value, now)], evicted, limit) else evicted == {}
      ensures State() == AfterFinish(old(State()), key, value, store, now, evicted)
    {
      evicted := {};
      if store {
        evicted := StoreLocked(key, value, now);
      }
      inFlight := inFlight - {key};
    }
  }

  function AfterFinish<V>(c: Cache<V>, key: string, value: V, store: bool, now: nat, evicted: set<string>): Cache<V> {
    var stored := if store then AfterStore(c, key, value, now, evicted) else c;
    stored.(inFlight := stored.inFlight - {key})
  }

  // ---- concurrent callers ------------------------------------------------

  /** Where a value came from: a Put, or the fetch of a caller. */
  datatype Source = ByPut | ByFetch(caller: nat)

  datatype Stored<V> = Stored(key: string, value: V, at: nat, source: Source)

  datatype Phase<V> =
    | Entering
    | Fetching(channel: nat)
    | Blocked(channel: nat)
    | Answered(value: V, own: bool, at: nat)
    | Failed(own: bool)

  datatype Caller<V> = Caller(key: string, cancelled: bool, phase: Phase<V>)

  /** The cache, whether each channel is closed, the callers of Load, and every
      store made so far. */
  datatype World<V> = World(cache: Cache<V>, closed: seq<bool>, callers: seq<Caller<V>>, stores: seq<Stored<V>>, now: nat)

  datatype Outcome = Uncacheable | Cacheable | Error

  datatype Step<V> =
    | Tick(to: nat)
    | Call(key: string)
    | Give(caller: nat)
    | Enter(caller: nat)
    | Return(caller: nat, value: V, outcome: Outcome, evicted: set<string>)
    | Leave(caller: nat)
    | Put(key: string, value: V, evicted: set<string>)
    | Get(key: string)

  predicate Enabled<V>(w: World<V>, step: Step<V>, limit: nat) {
    match step
    case Tick(to) => w.now <= to
    case Call(_) => true
    case Give(c) => c < |w.callers|
    case Enter(c) => c < |w.callers| && w.callers[c].phase.Entering?
    case Return(c, value, outcome, evicted) =>
      && c < |w.callers| && w.callers[c].phase.Fetching? && w.callers[c].phase.channel < |w.closed|
      && (outcome.Cacheable? ==> MayEvict(w.cache.entries[w.callers[c].key := Entry(value, w.now)], evicted, limit))
    case Leave(c) =>
      && c < |w.callers| && w.callers[c].phase.Blocked? && w.callers[c].phase.channel < |w.closed|
      && (w.closed[w.callers[c].phase.channel] || w.callers[c].cancelled)
    case Put(key, value, evicted) => MayEvict(w.cache.entries[key := Entry(value, w.now)], evicted, limit)
    case Get(_) => true
  }

  function Moved<V>(w: World<V>, c: nat, phase: Phase<V>): World<V>
    requires c < |w.callers|
  {
    w.(callers := w.callers[c := w.callers[c].(phase := phase)])
  }

  function Next<V>(w: World<V>, step: Step<V>, ttl: int, limit: nat): World<V>
    requires Enabled(w, step, limit)
  {
    match step
    case Tick(to) => w.(now := to)
    case Call(key) => w.(callers := w.callers + [Caller(key, false, Entering)])
    case Give(c) => w.(callers := w.callers[c := w.callers[c].(cancelled := true)])
    case Enter(c) =>
      var key := w.callers[c].key;
      var cache := AfterEnter(w.cache, key, w.now, ttl, |w.closed|);
      (match EnterResult(w.cache, key, w.now, ttl, |w.closed|)
       case Hit(value) => Moved(w.(cache := cache), c, Answered(value, false, w.now))
       case Fetch(own) => Moved(w.(cache := cache, closed := w.closed + [false]), c, Fetching(own))
       case Busy(channel) => Moved(w.(cache := cache), c, Blocked(channel)))
    case Return(c, value, outcome, evicted) =>
      var key := w.callers[c].key;
      var after := w.(
        cache := AfterFinish(w.cache, key, value, outcome.Cacheable?, w.now, evicted),
        closed := w.closed[w.callers[c].phase.channel := true],
        stores := if outcome.Cacheable? then w.stores + [Stored(key, value, w.now, ByFetch(c))] else w.stores);
      Moved(after, c, if outcome.Error? then Failed(true) else Answered(value, true, w.now))
    case Leave(c) =>
      var after := w.(cache := w.cache.(waiters := w.cache.waiters - 1));
      Moved(after, c, if w.callers[c].cancelled then Failed(false) else Entering)
    case Put(key, value, evicted) =>
      w.(cache := AfterStore(w.cache, key, value, w.now, evicted), stores := w.stores + [Stored(key, value, w.now, ByPut)])
    case Get(key) => w.(cache := w.cache.(entries := AfterLookup(w.cache.entries, key, w.now, ttl)))
  }

  function Run<V>(steps: seq<Step<V>>, ttl: int, limit: nat): World<V> {
    if steps == [] then World(Cache(map[], map[], 0), [], [], [], 0)
    else
      var before := Run(steps[..|steps| - 1], ttl, limit);
      if Enabled(before, steps[|steps| - 1], limit) then Next(before, steps[|steps| - 1], ttl, limit) else before
  }

  // ---- what every run keeps ----------------------------------------------

  /** Every cached value was stored under its key at its time. */
  ghost predicate EntriesStored<V>(w: World<V>) {
    forall key | key in w.cache.entries ::
      exists e | 0 <= e < |w.stores| :: StoredAs(w.stores[e], key, w.cache.entries[key].value, w.cache.entries[key].stored)
  }

  ghost predicate StoredAs<V>(e: Stored<V>, key: string, value: V, at: nat) { e.key == key && e.value == value && e.at == at }

  /** The fetch of a key in flight belongs to exactly one caller. */
  ghost predicate OneFetchEach<V>(w: World<V>) {
    && (forall c | 0 <= c < |w.callers| && w.callers[c].phase.Fetching? ::
          w.callers[c].key in w.cache.inFlight && w.cache.inFlight[w.callers[c].key] == w.callers[c].phase.channel < |w.closed|)
    && FetchApart(w.callers)
    && (forall key | key in w.cache.inFlight :: exists c | 0 <= c < |w.callers| :: FetchesFor(w.callers[c], key))
  }

  ghost predicate FetchApart<V>(callers: seq<Caller<V>>) {
    forall c, d | 0 <= c < d < |callers| :: !BothFetch(callers[c], callers[d])
  }

  predicate BothFetch<V>(c: Caller<V>, d: Caller<V>) { c.phase.Fetching? && d.phase.Fetching? && (c.key == d.key || c.phase.channel == d.phase.channel) }

  predicate FetchesFor<V>(c: Caller<V>, key: string) { c.phase.Fetching? && c.key == key }

  /** A channel that callers block on is open only while its fetch runs. */
  ghost predicate OpenMeansFetching<V>(w: World<V>) {
    forall c | 0 <= c < |w.callers| && w.callers[c].phase.Blocked? ::
      && w.callers[c].phase.channel < |w.closed|
      && (w.closed[w.callers[c].phase.channel] || InFlightOn(w, w.callers[c].key, w.callers[c].phase.channel))
  }

  predicate InFlightOn<V>(w: World<V>, key: string, channel: nat) { key in w.cache.inFlight && w.cache.inFlight[key] == channel }

  function BlockedCount<V>(callers: seq<Caller<V>>): nat {
    if callers == [] then 0 else BlockedCount(callers[..|callers| - 1]) + if callers[|callers| - 1].phase.Blocked? then 1 else 0
  }

  /** Nobody fails but through their own fetch or their own cancellation, and a
      shared answer was stored under the caller's key less than a time to live
      before it was given. */
  ghost predicate AnsweredWell<V>(caller: Caller<V>, stores: seq<Stored<V>>, ttl: int) {
    && (caller.phase.Failed? && !caller.phase.own ==> caller.cancelled)
    && (caller.phase.Answered? && !caller.phase.own ==>
          exists e | 0 <= e < |stores| :: FreshFor(stores[e], caller, ttl))
  }

  ghost predicate FreshFor<V>(e: Stored<V>, caller: Caller<V>, ttl: int)
    requires caller.phase.Answered?
  {
    e.key == caller.key && e.value == caller.phase.value && caller.phase.at < e.at + ttl
  }

  /** A stored value is a Put's, or the answer its fetching caller returned. */
  ghost predicate SourceFine<V>(e: Stored<V>, callers: seq<Caller<V>>) {
    e.source.ByFetch? ==>
      e.source.caller < |callers| && callers[e.source.caller].key == e.key && callers[e.source.caller].phase == Answered(e.value, true, e.at)
  }

  ghost predicate AllAnsweredWell<V>(w: World<V>, ttl: int) {
    forall c | 0 <= c < |w.callers| :: AnsweredWell(w.callers[c], w.stores, ttl)
  }

  ghost predicate SourcesFine<V>(w: World<V>) {
    forall e | 0 <= e < |w.stores| :: SourceFine(w.stores[e], w.callers)
  }

  ghost predicate Inv<V>(w: World<V>, ttl: int, limit: nat) {
    && |w.cache.entries| <= limit
    && EntriesStored(w)
    && OneFetchEach(w)
    && OpenMeansFetching(w)
    && w.cache.waiters == BlockedCount(w.callers)
    && AllAnsweredWell(w, ttl)
    && SourcesFine(w)
  }

  lemma {:induction false} BlockedAfter<V>(callers: seq<Caller<V>>, c: nat, caller: Caller<V>)
    requires c < |callers|
    ensures BlockedCount(callers[c := caller]) ==
            BlockedCount(callers) - (if callers[c].phase.Blocked? then 1 else 0) + (if caller.phase.Blocked? then 1 else 0)
  {
    var n := |callers| - 1;
    if c < n {
      BlockedAfter(callers[..n], c, caller);
      assert callers[c := caller][..n] == callers[..n][c := caller];
    } else {
      assert callers[c := caller][..n] == callers[..n];
    }
  }

  lemma FewerEntries<V>(entries: map<string, Entry<V>>, gone: set<string>)
    ensures |entries - gone| <= |entries|
  {
    assert (entries - gone).Keys <= entries.Keys;
    Subset((entries - gone).Keys, entries.Keys);
    assert |(entries - gone).Keys| == |entries - gone| && |entries.Keys| == |entries|;
  }

  lemma {:induction false} Subset(a: set<string>, b: set<string>)
    requires a <= b
    ensures |a| <= |b|
  {
    if a != {} {
      var x := Sorting.SomeMember(a);
      Subset(a - {x}, b - {x});
    }
  }

  lemma EvictionFits<V>(entries: map<string, Entry<V>>, evicted: set<string>, limit: nat)
    requires MayEvict(entries, evicted, limit)
    ensures |entries - evicted| <= limit
  {
    assert (entries - evicted).Keys == entries.Keys - evicted;
    assert |entries.Keys - evicted| == |entries.Keys| - |evicted|;
    assert |(entries - evicted).Keys| == |entries - evicted| && |entries.Keys| == |entries|;
  }

  lemma MoreStores<V>(w: World<V>, ttl: int, e: Stored<V>)
    requires AllAnsweredWell(w, ttl) && EntriesStored(w)
    ensures AllAnsweredWell(w.(stores := w.stores + [e]), ttl) && EntriesStored(w.(stores := w.stores + [e]))
  {
    var more := w.stores + [e];
    forall c | 0 <= c < |w.callers| ensures AnsweredWell(w.callers[c], more, ttl) {
      assert AnsweredWell(w.callers[c], w.stores, ttl);
      if w.callers[c].phase.Answered? && !w.callers[c].phase.own {
        var i :| 0 <= i < |w.stores| && FreshFor(w.stores[i], w.callers[c], ttl);
        assert more[i] == w.stores[i];
      }
    }
    forall key | key in w.cache.entries
      ensures exists i | 0 <= i < |more| :: StoredAs(more[i], key, w.cache.entries[key].value, w.cache.entries[key].stored)
    {
      var i :| 0 <= i < |w.stores| && StoredAs(w.stores[i], key, w.cache.entries[key].value, w.cache.entries[key].stored);
      assert more[i] == w.stores[i];
    }
  }

  lemma StoreKeepsEntries<V>(w: World<V>, key: string, value: V, evicted: set<string>, source: Source)
    requires EntriesStored(w)
    ensures EntriesStored(w.(cache := AfterStore(w.cache, key, value, w.now, evicted), stores := w.stores + [Stored(key, value, w.now, source)]))
  {
    var more := w.stores + [Stored(key, value, w.now, source)];
    var entries := w.cache.entries[key := Entry(value, w.now)] - evicted;
    forall k | k in entries
      ensures exists i | 0 <= i < |more| :: StoredAs(more[i], k, entries[k].value, entries[k].stored)
    {
      if k == key {
        assert StoredAs(more[|w.stores|], k, entries[k].value, entries[k].stored);
      } else {
        var i :| 0 <= i < |w.stores| && StoredAs(w.stores[i], k, w.cache.entries[k].value, w.cache.entries[k].stored);
        assert more[i] == w.stores[i];
      }
    }
  }

  /** The parts of the invariant that speak of fetches and waiters. */
  ghost predicate Flights<V>(w: World<V>) {
    OneFetchEach(w) && OpenMeansFetching(w) && w.cache.waiters == BlockedCount(w.callers)
  }

  ghost predicate Values<V>(w: World<V>, ttl: int, limit: nat) {
    |w.cache.entries| <= limit && EntriesStored(w) && AllAnsweredWell(w, ttl) && SourcesFine(w)
  }

  lemma ReplacedApart<V>(callers: seq<Caller<V>>, c: nat, caller: Caller<V>)
    requires FetchApart(callers) && c < |callers|
    requires caller.key == callers[c].key && (caller.phase == callers[c].phase || !caller.phase.Fetching?)
    ensures FetchApart(callers[c := caller])
  {
    var after := callers[c := caller];
    forall d, e | 0 <= d < e < |callers| ensures !BothFetch(after[d], after[e]) {
      assert !BothFetch(callers[d], callers[e]);
    }
  }

  lemma StartsApart<V>(w: World<V>, c: nat)
    requires OneFetchEach(w) && c < |w.callers| && w.callers[c].key !in w.cache.inFlight
    ensures FetchApart(w.callers[c := w.callers[c].(phase := Fetching(|w.closed|))])
  {
    var after := w.callers[c := w.callers[c].(phase := Fetching(|w.closed|))];
    forall d, e | 0 <= d < e < |w.callers| ensures !BothFetch(after[d], after[e]) {
      assert !BothFetch(w.callers[d], w.callers[e]);
    }
  }

  lemma NotTwice<V>(callers: seq<Caller<V>>, c: nat, d: nat)
    requires FetchApart(callers) && c < |callers| && d < |callers| && c != d && callers[c].phase.Fetching? && callers[d].phase.Fetching?
    ensures callers[c].key != callers[d].key && callers[c].phase.channel != callers[d].phase.channel
  {
    var low, high := if c < d then c else d, if c < d then d else c;
    assert !BothFetch(callers[low], callers[high]);
  }

  lemma EnterKeepsFlights<V>(w: World<V>, c: nat, ttl: int, limit: nat)
    requires Flights(w) && Enabled(w, Step<V>.Enter(c), limit)
    ensures Flights(Next(w, Step<V>.Enter(c), ttl, limit))
  {
    var key := w.callers[c].key;
    var r := EnterResult(w.cache, key, w.now, ttl, |w.closed|);
    var after := Next(w, Step<V>.Enter(c), ttl, limit);
    hide Flights, Hits;
    match r
    case Hit(value) => IdleMoveKeepsFlights(w, after, c);
    case Fetch(channel) => FetchKeepsFlights(w, after, c);
    case Busy(channel) => IdleMoveKeepsFlights(w, after, c);
  }

  lemma FetchKeepsFlights<V>(w: World<V>, after: World<V>, c: nat)
    requires Flights(w) && c < |w.callers| && w.callers[c].phase.Entering? && w.callers[c].key !in w.cache.inFlight
    requires after.cache.inFlight == w.cache.inFlight[w.callers[c].key := |w.closed|] && after.closed == w.closed + [false]
    requires after.callers == w.callers[c := w.callers[c].(phase := Fetching(|w.closed|))] && after.cache.waiters == w.cache.waiters
    ensures Flights(after)
  {
    BlockedAfter(w.callers, c, after.callers[c]);
    hide BlockedCount;
    forall k | k in after.cache.inFlight ensures exists d | 0 <= d < |after.callers| :: FetchesFor(after.callers[d], k) {
      if k == w.callers[c].key {
        assert FetchesFor(after.callers[c], k);
      } else {
        var d :| 0 <= d < |w.callers| && FetchesFor(w.callers[d], k);
        assert after.callers[d] == w.callers[d];
      }
    }
    StartsApart(w, c);
    FetchKeepsOpen(w, after, c);
    hide FetchApart, OpenMeansFetching;
    assert OneFetchEach(after);
  }

  lemma FetchKeepsOpen<V>(w: World<V>, after: World<V>, c: nat)
    requires OpenMeansFetching(w) && c < |w.callers| && w.callers[c].key !in w.cache.inFlight
    requires after.cache.inFlight == w.cache.inFlight[w.callers[c].key := |w.closed|] && after.closed == w.closed + [false]
    requires after.callers == w.callers[c := w.callers[c].(phase := Fetching(|w.closed|))]
    ensures OpenMeansFetching(after)
  {
    assert forall k, channel: nat :: InFlightOn(w, k, channel) ==> InFlightOn(after, k, channel);
    assert forall d | 0 <= d < |w.closed| :: after.closed[d] == w.closed[d];
  }

  lemma ReturnKeepsFlights<V>(w: World<V>, after: World<V>, c: nat)
    requires Flights(w) && c < |w.callers| && w.callers[c].phase.Fetching? && w.callers[c].phase.channel < |w.closed|
    requires after.cache.inFlight == w.cache.inFlight - {w.callers[c].key} && after.closed == w.closed[w.callers[c].phase.channel := true]
    requires c < |after.callers| && after.callers == w.callers[c := after.callers[c]]
    requires after.callers[c].key == w.callers[c].key
    requires !after.callers[c].phase.Fetching? && !after.callers[c].phase.Blocked? && after.cache.waiters == w.cache.waiters
    ensures Flights(after)
  {
    BlockedAfter(w.callers, c, after.callers[c]);
    hide BlockedCount;
    var key := w.callers[c].key;
    forall k | k in after.cache.inFlight ensures exists d | 0 <= d < |after.callers| :: FetchesFor(after.callers[d], k) {
      var d :| 0 <= d < |w.callers| && FetchesFor(w.callers[d], k);
      assert after.callers[d] == w.callers[d];
    }
    ReplacedApart(w.callers, c, after.callers[c]);
    forall d | 0 <= d < |after.callers| && after.callers[d].phase.Fetching? ensures after.callers[d].key != key {
      NotTwice(w.callers, c, d);
    }
    hide FetchApart;
    assert OneFetchEach(after);
    assert OpenMeansFetching(after);
  }

  /** A caller that does not fetch moves on, or any caller stays where it is. */
  lemma IdleMoveKeepsFlights<V>(w: World<V>, after: World<V>, c: nat)
    requires Flights(w) && c < |w.callers| == |after.callers|
    requires after.cache.inFlight == w.cache.inFlight && after.closed == w.closed
    requires after.callers == w.callers[c := after.callers[c]] && after.callers[c].key == w.callers[c].key
    requires after.callers[c].phase == w.callers[c].phase || (!w.callers[c].phase.Fetching? && !after.callers[c].phase.Fetching?)
    requires after.callers[c].phase.Blocked? ==>
               after.callers[c].phase == w.callers[c].phase || InFlightOn(w, w.callers[c].key, after.callers[c].phase.channel)
    requires after.cache.waiters == w.cache.waiters - (if w.callers[c].phase.Blocked? then 1 else 0) + (if after.callers[c].phase.Blocked? then 1 else 0)
    ensures Flights(after)
  {
    BlockedAfter(w.callers, c, after.callers[c]);
    ReplacedApart(w.callers, c, after.callers[c]);
    hide BlockedCount, FetchApart;
    forall k | k in after.cache.inFlight ensures exists d | 0 <= d < |after.callers| :: FetchesFor(after.callers[d], k) {
      var d :| 0 <= d < |w.callers| && FetchesFor(w.callers[d], k);
      assert FetchesFor(after.callers[d], k);
    }
    assert OneFetchEach(after);
    IdleMoveKeepsOpen(w, after, c);
  }

  lemma IdleMoveKeepsOpen<V>(w: World<V>, after: World<V>, c: nat)
    requires OneFetchEach(w) && OpenMeansFetching(w) && c < |w.callers| == |after.callers|
    requires after.cache.inFlight == w.cache.inFlight && after.closed == w.closed
    requires after.callers == w.callers[c := after.callers[c]] && after.callers[c].key == w.callers[c].key
    requires after.callers[c].phase.Blocked? ==>
               after.callers[c].phase == w.callers[c].phase || InFlightOn(w, w.callers[c].key, after.callers[c].phase.channel)
    ensures OpenMeansFetching(after)
  {
    if after.callers[c].phase.Blocked? && after.callers[c].phase != w.callers[c].phase {
      var d :| 0 <= d < |w.callers| && FetchesFor(w.callers[d], w.callers[c].key);
      assert w.callers[d].phase.channel == after.callers[c].phase.channel < |w.closed|;
    }
    hide OneFetchEach;
    assert forall k, channel: nat :: InFlightOn(w, k, channel) <==> InFlightOn(after, k, channel);
  }

  lemma {:induction false} FlightsKept<V>(w: World<V>, step: Step<V>, ttl: int, limit: nat)
    requires Flights(w) && Enabled(w, step, limit)
    ensures Flights(Next(w, step, ttl, limit))
  {
    match step
    case Enter(c) => EnterKeepsFlights(w, c, ttl, limit);
    case Return(c, value, outcome, evicted) => ReturnKeepsFlights(w, Next(w, step, ttl, limit), c);
    case Call(key) => CallKeepsFlights(w, key);
    case Give(c) => IdleMoveKeepsFlights(w, Next(w, step, ttl, limit), c);
    case Leave(c) => IdleMoveKeepsFlights(w, Next(w, step, ttl, limit), c);
    case Tick(_) => SameFlights(w, Next(w, step, ttl, limit));
    case Put(_, _, _) => SameFlights(w, Next(w, step, ttl, limit));
    case Get(_) => SameFlights(w, Next(w, step, ttl, limit));
  }

  lemma SameFlights<V>(w: World<V>, after: World<V>)
    requires Flights(w)
    requires after.cache.inFlight == w.cache.inFlight && after.cache.waiters == w.cache.waiters
    requires after.callers == w.callers && after.closed == w.closed
    ensures Flights(after)
  {
    hide BlockedCount;
    assert forall key, channel: nat :: InFlightOn(w, key, channel) <==> InFlightOn(after, key, channel);
  }

  lemma CallKeepsFlights<V>(w: World<V>, key: string)
    requires Flights(w)
    ensures Flights(w.(callers := w.callers + [Caller(key, false, Entering)]))
  {
    var after := w.(callers := w.callers + [Caller(key, false, Entering)]);
    assert after.callers[..|w.callers|] == w.callers;
    assert BlockedCount(after.callers) == BlockedCount(w.callers);
    hide BlockedCount;
    forall k | k in after.cache.inFlight ensures exists d | 0 <= d < |after.callers| :: FetchesFor(after.callers[d], k) {
      var d :| 0 <= d < |w.callers| && FetchesFor(w.callers[d], k);
      assert after.callers[d] == w.callers[d];
    }
    assert forall k, channel: nat :: InFlightOn(w, k, channel) <==> InFlightOn(after, k, channel);
  }

  lemma LookupKeepsValues<V>(w: World<V>, key: string, ttl: int, limit: nat)
    requires Values(w, ttl, limit)
    ensures Values(w.(cache := w.cache.(entries := AfterLookup(w.cache.entries, key, w.now, ttl))), ttl, limit)
  {
    FewerEntries(w.cache.entries, {key});
  }

  /** Moving one caller keeps what is said about values. */
  lemma MoveKeepsValues<V>(w: World<V>, after: World<V>, c: nat, ttl: int, limit: nat)
    requires Values(w, ttl, limit) && c < |w.callers| == |after.callers|
    requires after.cache.entries == w.cache.entries && after.stores == w.stores
    requires after.callers == w.callers[c := after.callers[c]] && after.callers[c].key == w.callers[c].key
    requires w.callers[c].phase.Answered? ==> after.callers[c].phase == w.callers[c].phase
    requires AnsweredWell(after.callers[c], after.stores, ttl)
    ensures Values(after, ttl, limit)
  {
    forall e | 0 <= e < |after.stores| ensures SourceFine(after.stores[e], after.callers) {
      assert SourceFine(w.stores[e], w.callers);
    }
    hide AnsweredWell, SourceFine;
  }

  lemma EnterKeepsValues<V>(w: World<V>, c: nat, ttl: int, limit: nat)
    requires Values(w, ttl, limit) && Enabled(w, Step<V>.Enter(c), limit)
    ensures Values(Next(w, Step<V>.Enter(c), ttl, limit), ttl, limit)
  {
    var key := w.callers[c].key;
    var after := Next(w, Step<V>.Enter(c), ttl, limit);
    var looked := w.(cache := w.cache.(entries := AfterLookup(w.cache.entries, key, w.now, ttl)));
    LookupKeepsValues(w, key, ttl, limit);
    EnterAnswersWell(w, c, ttl, limit);
    EnterMovesOne(w, c, ttl, limit);
    hide *;
    MoveKeepsValues(looked, after, c, ttl, limit);
  }

  lemma EnterMovesOne<V>(w: World<V>, c: nat, ttl: int, limit: nat)
    requires Enabled(w, Step<V>.Enter(c), limit)
    ensures var after := Next(w, Step<V>.Enter(c), ttl, limit);
            && w.callers[c].phase.Entering? && |w.callers| == |after.callers|
            && after.cache.entries == AfterLookup(w.cache.entries, w.callers[c].key, w.now, ttl) && after.stores == w.stores
            && after.callers == w.callers[c := after.callers[c]] && after.callers[c].key == w.callers[c].key
  {
    hide Hits, AfterLookup;
  }

  lemma EnterAnswersWell<V>(w: World<V>, c: nat, ttl: int, limit: nat)
    requires EntriesStored(w) && Enabled(w, Step<V>.Enter(c), limit)
    ensures var after := Next(w, Step<V>.Enter(c), ttl, limit); AnsweredWell(after.callers[c], after.stores, ttl)
  {
    var key := w.callers[c].key;
    var after := Next(w, Step<V>.Enter(c), ttl, limit);
    if Hits(w.cache.entries, key, w.now, ttl) {
      var e :| 0 <= e < |w.stores| && StoredAs(w.stores[e], key, w.cache.entries[key].value, w.cache.entries[key].stored);
      assert FreshFor(w.stores[e], after.callers[c], ttl);
    }
  }

  lemma ReturnKeepsValues<V>(w: World<V>, c: nat, value: V, outcome: Outcome, evicted: set<string>, ttl: int, limit: nat)
    requires Values(w, ttl, limit) && Enabled(w, Return(c, value, outcome, evicted), limit)
    ensures Values(Next(w, Return(c, value, outcome, evicted), ttl, limit), ttl, limit)
  {
    var after := Next(w, Return(c, value, outcome, evicted), ttl, limit);
    var moved := w.(callers := after.callers);
    assert after.callers == w.callers[c := after.callers[c]];
    MoveKeepsValues(w, moved, c, ttl, limit);
    if outcome.Cacheable? {
      var e := Stored(w.callers[c].key, value, w.now, ByFetch(c));
      EvictionFits(w.cache.entries[w.callers[c].key := Entry(value, w.now)], evicted, limit);
      AddStore(moved, e, evicted, ttl, limit);
      SameValues(moved.(cache := AfterStore(w.cache, e.key, value, w.now, evicted), stores := w.stores + [e]), after, ttl, limit);
    } else {
      SameValues(moved, after, ttl, limit);
    }
  }

  lemma SameValues<V>(w: World<V>, after: World<V>, ttl: int, limit: nat)
    requires Values(w, ttl, limit)
    requires after.cache.entries == w.cache.entries && after.callers == w.callers && after.stores == w.stores
    ensures Values(after, ttl, limit)
  {
  }

  lemma AddStore<V>(w: World<V>, e: Stored<V>, evicted: set<string>, ttl: int, limit: nat)
    requires Values(w, ttl, limit) && SourceFine(e, w.callers) && e.at == w.now
    requires |w.cache.entries[e.key := Entry(e.value, w.now)] - evicted| <= limit
    ensures Values(w.(cache := AfterStore(w.cache, e.key, e.value, w.now, evicted), stores := w.stores + [e]), ttl, limit)
  {
    MoreStores(w, ttl, e);
    StoreKeepsEntries(w, e.key, e.value, evicted, e.source);
    hide EntriesStored, AnsweredWell, SourceFine;
  }

  lemma {:induction false} ValuesKept<V>(w: World<V>, step: Step<V>, ttl: int, limit: nat)
    requires Values(w, ttl, limit) && Enabled(w, step, limit)
    ensures Values(Next(w, step, ttl, limit), ttl, limit)
  {
    match step
    case Enter(c) => EnterKeepsValues(w, c, ttl, limit);
    case Return(c, value, outcome, evicted) => ReturnKeepsValues(w, c, value, outcome, evicted, ttl, limit);
    case Call(key) => CallKeepsValues(w, key, ttl, limit);
    case Give(c) =>
      assert AnsweredWell(w.callers[c], w.stores, ttl);
      assert AnsweredWell(w.callers[c].(cancelled := true), w.stores, ttl) by {
        if w.callers[c].phase.Answered? && !w.callers[c].phase.own {
          var e :| 0 <= e < |w.stores| && FreshFor(w.stores[e], w.callers[c], ttl);
          assert FreshFor(w.stores[e], w.callers[c].(cancelled := true), ttl);
        }
      }
      MoveKeepsValues(w, Next(w, step, ttl, limit), c, ttl, limit);
    case Leave(c) => MoveKeepsValues(w, Next(w, step, ttl, limit), c, ttl, limit);
    case Tick(_) => SameValues(w, Next(w, step, ttl, limit), ttl, limit);
    case Put(key, value, evicted) =>
      EvictionFits(w.cache.entries[key := Entry(value, w.now)], evicted, limit);
      AddStore(w, Stored(key, value, w.now, ByPut), evicted, ttl, limit);
    case Get(key) => LookupKeepsValues(w, key, ttl, limit);
  }

  lemma CallKeepsValues<V>(w: World<V>, key: string, ttl: int, limit: nat)
    requires Values(w, ttl, limit)
    ensures Values(w.(callers := w.callers + [Caller(key, false, Entering)]), ttl, limit)
  {
    var after := w.(callers := w.callers + [Caller(key, false, Entering)]);
    assert AnsweredWell(after.callers[|w.callers|], after.stores, ttl);
    forall e | 0 <= e < |after.stores| ensures SourceFine(after.stores[e], after.callers) {
      assert SourceFine(w.stores[e], w.callers);
    }
    hide AnsweredWell, SourceFine;
  }

  /** Whatever callers, fetches, cancellations, stores and clock do, in any
      interleaving of the mutex sections. */
  lemma {:induction false} EveryRunKeeps<V>(steps: seq<Step<V>>, ttl: int, limit: nat)
    ensures Inv(Run(steps, ttl, limit), ttl, limit)
  {
    if steps == [] {
    } else {
      hide Flights, Values;
      EveryRunKeeps(steps[..|steps| - 1], ttl, limit);
      var before := Run(steps[..|steps| - 1], ttl, limit);
      InvParts(before, ttl, limit);
      if Enabled(before, steps[|steps| - 1], limit) {
        FlightsKept(before, steps[|steps| - 1], ttl, limit);
        ValuesKept(before, steps[|steps| - 1], ttl, limit);
        InvParts(Next(before, steps[|steps| - 1], ttl, limit), ttl, limit);
      }
    }
  }

  lemma InvParts<V>(w: World<V>, ttl: int, limit: nat)
    ensures Inv(w, ttl, limit) <==> Flights(w) && Values(w, ttl, limit)
  {
  }

  // ---- what it comes to --------------------------------------------------

  /** At most one fetch of a key is ever under way. */
  lemma SingleFlight<V>(steps: seq<Step<V>>, ttl: int, limit: nat, c: nat, d: nat)
    requires var w := Run(steps, ttl, limit);
             c < |w.callers| && d < |w.callers| && w.callers[c].phase.Fetching? && w.callers[d].phase.Fetching? && w.callers[c].key == w.callers[d].key
    ensures c == d
  {
    hide Run;
    EveryRunKeeps(steps, ttl, limit);
    var w := Run(steps, ttl, limit);
    var low, high := if c < d then c else d, if c < d then d else c;
    assert BothFetch(w.callers[low], w.callers[high]);
  }

  /** A caller that did not fetch itself was answered with a value that a Put,
      or another caller's own successful fetch, stored under its key less than
      a time to live earlier. */
  lemma SharedAnswersAreFresh<V>(steps: seq<Step<V>>, ttl: int, limit: nat, c: nat)
    requires var w := Run(steps, ttl, limit); c < |w.callers| && w.callers[c].phase.Answered? && !w.callers[c].phase.own
    ensures var w := Run(steps, ttl, limit);
            exists e | 0 <= e < |w.stores| :: FreshFor(w.stores[e], w.callers[c], ttl) && SourceFine(w.stores[e], w.callers)
  {
    hide Run;
    EveryRunKeeps(steps, ttl, limit);
    var w := Run(steps, ttl, limit);
    assert AnsweredWell(w.callers[c], w.stores, ttl);
    var e :| 0 <= e < |w.stores| && FreshFor(w.stores[e], w.callers[c], ttl);
    assert SourceFine(w.stores[e], w.callers);
  }

  /** Nobody waits for nothing: a blocked caller can leave at once, or the
      fetch it waits for is being made by a caller for the same key. */
  lemma WaitersAreWoken<V>(steps: seq<Step<V>>, ttl: int, limit: nat, c: nat)
    requires var w := Run(steps, ttl, limit); c < |w.callers| && w.callers[c].phase.Blocked?
    ensures var w := Run(steps, ttl, limit);
            Enabled(w, Step<V>.Leave(c), limit) ||
            exists d | 0 <= d < |w.callers| :: w.callers[d] == Caller(w.callers[c].key, w.callers[d].cancelled, Fetching(w.callers[c].phase.channel))
  {
    hide Run;
    EveryRunKeeps(steps, ttl, limit);
    var w := Run(steps, ttl, limit);
    if !Enabled(w, Step<V>.Leave(c), limit) {
      var d :| 0 <= d < |w.callers| && FetchesFor(w.callers[d], w.callers[c].key);
      assert w.callers[d].phase == Fetching(w.callers[c].phase.channel);
    }
  }

  /** A caller fails only through its own fetch or its own cancellation. */
  lemma FailuresAreOwn<V>(steps: seq<Step<V>>, ttl: int, limit: nat, c: nat)
    requires var w := Run(steps, ttl, limit); c < |w.callers| && w.callers[c].phase == Failed(false)
    ensures Run(steps, ttl, limit).callers[c].cancelled
  {
    hide Run;
    EveryRunKeeps(steps, ttl, limit);
    var w := Run(steps, ttl, limit);
    assert AnsweredWell(w.callers[c], w.stores, ttl);
  }
}
