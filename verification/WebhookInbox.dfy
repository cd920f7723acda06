/** The webhook inbox: accepted webhooks wait in a table until a processor
    applies them in arrival order, with a bounded number of retries
    (internal/catalog/webhook_inbox.go, internal/store/webhook_inbox.go). */
module WebhookInbox {
  import opened Text

  const MINUTE := 60_000_000_000
  const BATCH := 20
  const MAX_ATTEMPTS := 7

  /** A waiting webhook; ids ascend in arrival order. */
  datatype Item = Item(id: int, instance: string, receivedAt: int, attempt: nat, nextAt: int)

  datatype Outcome = Applied | Ignored | Invalid | Failed

  /** Where a drain stops: before the next handler runs, at a shutdown or a
      read that fails, or between the handler and the settlement, at a shutdown
      or a write that fails. */
  datatype Stop = Never | Before | After

  /** The wait before retry attempt + 1. */
  function WorkflowFailureDelay(attempt: int): (d: int)
    ensures MINUTE <= d <= 24 * 60 * MINUTE
  {
    if attempt <= 0 then MINUTE
    else if attempt == 1 then 5 * MINUTE
    else if attempt == 2 then 15 * MINUTE
    else if attempt == 3 then 60 * MINUTE
    else if attempt == 4 then 6 * 60 * MINUTE
    else 24 * 60 * MINUTE
  }

  /** A webhook is done with when it is applied, ignored or invalid, and
      abandoned when its seventh attempt fails. */
  predicate Ends(outcome: Outcome, attempt: nat) { outcome != Failed || attempt + 1 >= MAX_ATTEMPTS }

  predicate IsDue(item: Item, instance: string, now: int) { item.instance == instance && item.nextAt <= now }

  /** The due webhooks of an instance, the earliest first, up to a limit. */
  function Due(rows: seq<Item>, instance: string, now: int, limit: nat): seq<Item> {
    if rows == [] || limit == 0 then []
    else if IsDue(rows[0], instance, now) then [rows[0]] + Due(rows[1..], instance, now, limit - 1)
    else Due(rows[1..], instance, now, limit)
  }

  /** What handling a webhook leaves of it, with the clock at the retry. */
  function Left(item: Item, outcome: Outcome, now: int): seq<Item> {
    if Ends(outcome, item.attempt) then []
    else [item.(attempt := item.attempt + 1, nextAt := now + WorkflowFailureDelay(item.attempt))]
  }

  function AfterHandling(rows: seq<Item>, id: int, outcome: Outcome, now: int): seq<Item> {
    if rows == [] then []
    else if rows[0].id == id then Left(rows[0], outcome, now) + rows[1..]
    else [rows[0]] + AfterHandling(rows[1..], id, outcome, now)
  }

  ghost predicate InOrder(rows: seq<Item>) {
    forall i, j | 0 <= i < j < |rows| :: rows[i].id < rows[j].id
  }

  lemma {:induction false} DueFacts(rows: seq<Item>, instance: string, now: int, limit: nat)
    requires InOrder(rows)
    ensures var due := Due(rows, instance, now, limit);
            && |due| <= limit && InOrder(due)
            && (forall x | x in due :: x in rows && IsDue(x, instance, now))
            && (forall r, x | r in rows && IsDue(r, instance, now) && x in due && r.id < x.id :: r in due)
            && (limit > 0 && due == [] ==> forall r | r in rows :: !IsDue(r, instance, now))
  {
    if rows != [] && limit > 0 {
      var head, tail := rows[0], rows[1..];
      var left := if IsDue(head, instance, now) then limit - 1 else limit;
      DueFacts(tail, instance, now, left);
      var rest := Due(tail, instance, now, left);
      assert rows == [head] + tail;
      assert forall i | 0 <= i < |tail| :: tail[i] == rows[i + 1] && head.id < tail[i].id;
      hide InOrder, IsDue, Due;
      assert forall r | r in rest :: r in tail;
      if IsDue(head, instance, now) {
        InOrderCons(head, rest);
      }
    }
  }

  lemma InOrderCons(head: Item, rest: seq<Item>)
    requires InOrder(rest) && forall r | r in rest :: head.id < r.id
    ensures InOrder([head] + rest)
  {
    var all := [head] + rest;
    forall x, y | 0 <= x < y < |all| ensures all[x].id < all[y].id {
      assert all[y] == rest[y - 1] && rest[y - 1] in rest;
      if x > 0 {
        assert all[x] == rest[x - 1];
      }
    }
  }

  /** Handling a waiting webhook changes that one and no other. */
  lemma {:induction false} HandlingFacts(rows: seq<Item>, item: Item, outcome: Outcome, now: int)
    requires InOrder(rows) && item in rows
    ensures var after := AfterHandling(rows, item.id, outcome, now);
            && InOrder(after)
            && (forall r: Item | r.id != item.id :: r in after <==> r in rows)
            && (forall r: Item | r.id == item.id :: r in after <==> r in Left(item, outcome, now))
            && Effort(after) < Effort(rows)
  {
    var i :| 0 <= i < |rows| && rows[i] == item;
    assert forall j | 0 <= j < i :: rows[j].id < rows[i].id;
    HandlingAt(rows, i, outcome, now);
    HandlingOrder(rows, i, Left(item, outcome, now));
    HandlingEffort(rows, i, Left(item, outcome, now));
  }

  /** What a settlement does, in numbers: after a failure that is not the seventh
      the webhook waits one minute, then 5 and 15 minutes, 1, 6 and 24 hours,
      counts one attempt more and is otherwise the same; after anything else it
      is gone; and every other webhook stays as it is. */
  lemma SettlementRules(rows: seq<Item>, item: Item, outcome: Outcome, now: int)
    requires InOrder(rows) && item in rows
    ensures var after := AfterHandling(rows, item.id, outcome, now);
            && (forall r: Item | r.id != item.id :: r in after <==> r in rows)
            && (outcome == Failed && item.attempt < 6 ==>
                  var waits := [60_000_000_000, 300_000_000_000, 900_000_000_000, 3_600_000_000_000, 21_600_000_000_000, 86_400_000_000_000];
                  forall r: Item | r.id == item.id :: r in after <==> r == Item(item.id, item.instance, item.receivedAt, item.attempt + 1, now + waits[item.attempt]))
            && (outcome != Failed || item.attempt >= 6 ==> forall r: Item | r.id == item.id :: r !in after)
  {
    HandlingFacts(rows, item, outcome, now);
  }

  lemma {:induction false} HandlingAt(rows: seq<Item>, i: nat, outcome: Outcome, now: int)
    requires i < |rows| && forall j | 0 <= j < i :: rows[j].id != rows[i].id
    ensures AfterHandling(rows, rows[i].id, outcome, now) == rows[..i] + Left(rows[i], outcome, now) + rows[i + 1..]
  {
    if i > 0 {
      assert rows[0].id != rows[i].id;
      HandlingAt(rows[1..], i - 1, outcome, now);
      assert [rows[0]] + rows[1..][..i - 1] == rows[..i];
    }
  }

  lemma HandlingOrder(rows: seq<Item>, i: nat, left: seq<Item>)
    requires InOrder(rows) && i < |rows| && |left| <= 1 && (left != [] ==> left[0].id == rows[i].id)
    ensures var after := rows[..i] + left + rows[i + 1..];
            && InOrder(after)
            && (forall r: Item | r.id != rows[i].id :: r in after <==> r in rows)
            && (forall r: Item | r.id == rows[i].id :: r in after <==> r in left)
  {
    var after := rows[..i] + left + rows[i + 1..];
    forall x, y | 0 <= x < y < |after| ensures after[x].id < after[y].id {
      var x0 := if x < i + |left| then x else x - |left| + 1;
      var y0 := if y < i + |left| then y else y - |left| + 1;
      assert after[x].id == rows[x0].id && after[y].id == rows[y0].id;
    }
    assert rows == rows[..i] + [rows[i]] + rows[i + 1..];
    assert forall r | r in rows[..i] :: r.id < rows[i].id;
    assert forall r | r in rows[i + 1..] :: r.id > rows[i].id;
  }

  lemma {:induction false} HandlingEffort(rows: seq<Item>, i: nat, left: seq<Item>)
    requires i < |rows| && |left| <= 1 && Effort(left) < Effort([rows[i]])
    ensures Effort(rows[..i] + left + rows[i + 1..]) < Effort(rows)
  {
    if i == 0 {
      assert rows[..0] + left + rows[1..] == left + rows[1..];
      if left == [] {
        assert left + rows[1..] == rows[1..];
      } else {
        assert (left + rows[1..])[1..] == rows[1..];
      }
    } else {
      HandlingEffort(rows[1..], i - 1, left);
      var rest := rows[1..][..i - 1] + left + rows[1..][i..];
      assert rows[1..][i..] == rows[i + 1..];
      assert rows[..i] + left + rows[i + 1..] == [rows[0]] + rest;
    }
  }

  /** The handlings still to come, at most: what each waiting webhook can take
      before it is abandoned. */
  function Effort(rows: seq<Item>): nat {
    if rows == [] then 0
    else (if rows[0].attempt < MAX_ATTEMPTS then MAX_ATTEMPTS - rows[0].attempt else 1) + Effort(rows[1..])
  }

  // ---- what a processor did ----------------------------------------------

  /** One handling: the attempt it was, how it ended, and the clock when the
      batch was read and when a retry was scheduled. */
  datatype Handled = Handled(id: int, attempt: nat, outcome: Outcome, read: int, now: int)

  function Replay(rows: seq<Item>, log: seq<Handled>): seq<Item> {
    if log == [] then rows
    else
      var e := log[|log| - 1];
      AfterHandling(Replay(rows, log[..|log| - 1]), e.id, e.outcome, e.now)
  }

  /** A handling is made of the earliest webhook that waits then and was due
      when the batch was read: all that it passes were not due. */
  ghost predicate Legal(rows: seq<Item>, e: Handled, instance: string) {
    && (exists item :: item in rows && item.id == e.id && item.attempt == e.attempt && IsDue(item, instance, e.read))
    && (forall r | r in rows && IsDue(r, instance, e.read) :: e.id <= r.id)
  }

  ghost predicate AllLegal(rows: seq<Item>, log: seq<Handled>, instance: string) {
    forall k | 0 <= k < |log| :: Legal(Replay(rows, log[..k]), log[k], instance)
  }

  predicate HandledIn(log: seq<Handled>, id: int) {
    exists k :: 0 <= k < |log| && log[k].id == id
  }

  /** What no handling has touched waits as it did. */
  lemma {:induction false} UntouchedWaits(rows: seq<Item>, log: seq<Handled>, instance: string)
    requires InOrder(rows) && AllLegal(rows, log, instance)
    ensures InOrder(Replay(rows, log))
    ensures forall r | r in rows && !HandledIn(log, r.id) :: r in Replay(rows, log)
  {
    if log != [] {
      var n := |log| - 1;
      var before, e := log[..n], log[n];
      assert forall k | 0 <= k < n :: before[..k] == log[..k];
      UntouchedWaits(rows, before, instance);
      var item :| item in Replay(rows, before) && item.id == e.id && item.attempt == e.attempt;
      HandlingFacts(Replay(rows, before), item, e.outcome, e.now);
      hide AllLegal, Legal, InOrder, AfterHandling;
      forall r | r in rows && !HandledIn(log, r.id) ensures r in Replay(rows, log) {
        assert log[n].id != r.id;
        assert forall k | 0 <= k < n :: before[k] == log[k];
      }
    }
  }

  /** Nobody is overtaken who was due at the start: it is handled before
      anything that arrived after it. */
  lemma NoneOvertaken(rows: seq<Item>, log: seq<Handled>, instance: string, start: int, k: nat, r: Item)
    requires InOrder(rows) && AllLegal(rows, log, instance)
    requires k < |log| && start <= log[k].read
    requires r in rows && IsDue(r, instance, start) && r.id < log[k].id
    ensures HandledIn(log[..k], r.id)
  {
    assert forall j | 0 <= j < k :: log[..k][..j] == log[..j];
    UntouchedWaits(rows, log[..k], instance);
    assert Legal(Replay(rows, log[..k]), log[k], instance);
  }

  /** Two webhooks that arrived one after the other. */
  function Pair(now: int): seq<Item> { [Item(1, "radarr", now, 0, now), Item(2, "radarr", now, 0, now)] }

  function Retried(now: int): Item { Item(1, "radarr", now, 1, now + MINUTE) }

  /** The first fails once: every drain on a standing clock that settles
      whatever is due handles the second while the first waits for its retry. */
  lemma {:induction false} RetriedIsPassed(log: seq<Handled>, now: int)
    requires AllLegal(Pair(now), log, "radarr")
    requires forall r | r in Replay(Pair(now), log) :: !IsDue(r, "radarr", now)
    requires forall k | 0 <= k < |log| :: log[k].read == now && log[k].now == now
    requires forall k | 0 <= k < |log| :: log[k].outcome == if log[k].id == 1 && log[k].attempt == 0 then Failed else Applied
    ensures |log| == 2 && log[0].id == 1 && log[1].id == 2
    ensures Replay(Pair(now), log[..1]) == [Retried(now), Pair(now)[1]] && Replay(Pair(now), log) == [Retried(now)]
  {
    FirstFails(log, now);
    assert log[..2][..1] == log[..1];
    assert Legal(Replay(Pair(now), log[..1]), log[1], "radarr") && Pair(now)[1] in [Retried(now), Pair(now)[1]];
    assert AfterHandling([Retried(now), Pair(now)[1]], 2, Applied, now) == [Retried(now)];
    assert Replay(Pair(now), log[..2]) == [Retried(now)];
    assert forall e: Handled | e.read == now :: !Legal([Retried(now)], e, "radarr");
    assert log[..2] == log;
  }

  lemma {:induction false} FirstFails(log: seq<Handled>, now: int)
    requires AllLegal(Pair(now), log, "radarr")
    requires forall r | r in Replay(Pair(now), log) :: !IsDue(r, "radarr", now)
    requires forall k | 0 <= k < |log| :: log[k].read == now && log[k].now == now
    requires forall k | 0 <= k < |log| :: log[k].outcome == if log[k].id == 1 && log[k].attempt == 0 then Failed else Applied
    ensures |log| > 1 && log[0].id == 1 && Replay(Pair(now), log[..1]) == [Retried(now), Pair(now)[1]]
  {
    assert Pair(now)[0] in Pair(now) && Pair(now)[1] in [Retried(now), Pair(now)[1]];
    assert log == [] ==> Replay(Pair(now), log) == Pair(now);
    assert log[..0] == [] && Legal(Pair(now), log[0], "radarr");
    assert AfterHandling(Pair(now), 1, Failed, now) == [Retried(now), Pair(now)[1]];
    assert log[..1][..0] == [] && Replay(Pair(now), log[..1]) == [Retried(now), Pair(now)[1]];
    assert log[..1] != log;
  }

  ghost predicate Advancing(clock: nat -> int) {
    forall i: nat, j: nat | i <= j :: clock(i) <= clock(j)
  }

  class Inbox {
    var rows: seq<Item>

    constructor ()
      ensures rows == []
    {
      rows := [];
    }

    method EnqueueWebhook(id: int, instance: string, body: string, receivedAt: int) returns (ok: bool)
      requires forall r | r in rows :: r.id < id
      modifies this
      ensures ok <==> instance != "" && body != "" && receivedAt != 0
      ensures rows == if ok then old(rows) + [Item(id, instance, receivedAt, 0, receivedAt)] else old(rows)
    {
      if instance == "" || body == "" || receivedAt == 0 {
        return false;
      }
      rows := rows + [Item(id, instance, receivedAt, 0, receivedAt)];
      ok := true;
    }

    method DueWebhooks(instance: string, now: int, limit: nat) returns (items: seq<Item>)
      ensures items == Due(rows, instance, now, limit)
    {
      items := [];
      assert rows[0..] == rows;
      for i := 0 to |rows|
        invariant |items| <= limit && items + Due(rows[i..], instance, now, limit - |items|) == Due(rows, instance, now, limit)
      {
        if |items| == limit {
          return;
        }
        assert rows[i..][1..] == rows[i + 1..];
        if rows[i].instance == instance && rows[i].nextAt <= now {
          assert items + ([rows[i]] + Due(rows[i + 1..], instance, now, limit - |items| - 1))
              == (items + [rows[i]]) + Due(rows[i + 1..], instance, now, limit - |items| - 1);
          items := items + [rows[i]];
        }
      }
      assert rows[|rows|..] == [];
    }

    /** Retries or deletes a handled webhook. */
    method Settle(item: Item, outcome: Outcome, now: int)
      requires InOrder(rows) && item in rows
      modifies this
      ensures rows == AfterHandling(old(rows), item.id, outcome, now)
    {
      var i := 0;
      while rows[i].id != item.id
        invariant 0 <= i < |rows| && rows == old(rows)
        invariant forall j | 0 <= j < i :: rows[j].id != item.id
        invariant exists j :: i <= j < |rows| && rows[j] == item
        decreases |rows| - i
      {
        i := i + 1;
      }
      HandlingAt(rows, i, outcome, now);
      assert rows[i] == item;
      if outcome == Failed && item.attempt + 1 < MAX_ATTEMPTS {
        rows := rows[..i] + [item.(attempt := item.attempt + 1, nextAt := now + WorkflowFailureDelay(item.attempt))] + rows[i + 1..];
      } else {
        rows := rows[..i] + rows[i + 1..];
      }
    }

    /** Applies every due webhook of an instance, batch by batch, until nothing
        is due or it is stopped. The handler answers each attempt of each
        webhook as it likes, the clock is read once per batch and once per
        settlement, and stops says where it stops by how many it has settled.
        The interrupted webhook is the one whose handler ran and whose row
        stayed as it was. */
    method Drain(instance: string, handler: (int, nat) -> Outcome, clock: nat -> int, stops: nat -> Stop)
      returns (log: seq<Handled>, last: int, done: bool, interrupted: Option<Item>)
      requires InOrder(rows) && Advancing(clock)
      modifies this
      ensures rows == Replay(old(rows), log) && AllLegal(old(rows), log, instance)
      ensures Timed(log, handler, clock(0), last) && clock(0) <= last && exists t: nat :: last == clock(t)
      ensures forall k | 0 <= k < |log| :: stops(k) == Never
      ensures done ==> interrupted == None && forall r | r in rows :: !IsDue(r, instance, last)
      ensures !done ==> stops(|log|) == if interrupted == None then Before else After
      ensures interrupted.Some? ==> interrupted.value in rows && IsDue(interrupted.value, instance, last)
    {
      log, done, interrupted := [], false, None;
      var tick: nat := 0;
      var start := rows;
      while true
        invariant InOrder(rows) && rows == Replay(old(rows), log) && AllLegal(old(rows), log, instance)
        invariant Timed(log, handler, clock(0), clock(tick)) && interrupted == None && !done
        invariant forall k | 0 <= k < |log| :: stops(k) == Never
        decreases Effort(rows)
      {
        last := clock(tick);
        assert clock(0) <= last;
        if stops(|log|) == Before {
          return;
        }
        var items := DueWebhooks(instance, last, BATCH);
        DueFacts(rows, instance, last, BATCH);
        if items == [] {
          done := true;
          return;
        }
        ghost var before := log;
        var settled;
        log, tick, settled, interrupted := DrainBatch(items, instance, handler, clock, stops, tick, start, log);
        assert clock(0) <= clock(tick);
        if settled < |items| {
          last := clock(tick);
          return;
        }
      }
    }

    /** Handles the webhooks of a batch in order until it is stopped. */
    method DrainBatch(items: seq<Item>, instance: string, handler: (int, nat) -> Outcome, clock: nat -> int, stops: nat -> Stop,
                      read: nat, first: seq<Item>, before: seq<Handled>)
      returns (log: seq<Handled>, tick: nat, settled: nat, interrupted: Option<Item>)
      requires InOrder(rows) && Advancing(clock) && items == Due(rows, instance, clock(read), BATCH)
      requires rows == Replay(first, before) && AllLegal(first, before, instance)
      requires Timed(before, handler, clock(0), clock(read))
      requires forall k | 0 <= k < |before| :: stops(k) == Never
      modifies this
      ensures tick >= read && settled <= |items|
      ensures BatchDone(first, old(rows), before, rows, log, items, settled, instance, handler, clock(0), clock(read), clock(tick))
      ensures forall k | 0 <= k < |log| :: stops(k) == Never
      ensures settled == |items| ==> interrupted == None
      ensures settled < |items| ==> stops(|log|) == if interrupted == None then Before else After
      ensures interrupted.Some? ==> interrupted.value in rows && IsDue(interrupted.value, instance, clock(tick))
    {
      hide Replay, AllLegal, Due, Timed, InOrder, BatchDone, AfterHandling;
      log, tick, settled, interrupted := before, read, 0, None;
      assert clock(0) <= clock(read);
      BatchBegins(first, rows, before, items, instance, handler, clock(0), clock(read));
      while settled < |items|
        invariant tick >= read && settled <= |items| && interrupted == None
        invariant BatchDone(first, old(rows), before, rows, log, items, settled, instance, handler, clock(0), clock(read), clock(tick))
        invariant forall k | 0 <= k < |log| :: stops(k) == Never
      {
        if stops(|log|) == Before {
          return;
        }
        var item := items[settled];
        BatchItem(first, old(rows), before, rows, log, items, settled, instance, handler, clock(0), clock(read), clock(tick));
        assert clock(read) <= clock(tick) <= clock(tick + 1);
        var outcome := handler(item.id, item.attempt);
        if stops(|log|) == After {
          interrupted := Some(item);
          return;
        }
        tick := tick + 1;
        BatchStep(first, old(rows), before, rows, log, items, settled, instance, handler, clock(0), clock(read), clock(tick - 1), clock(tick));
        Settle(item, outcome, clock(tick));
        log := log + [Handled(item.id, item.attempt, outcome, clock(read), clock(tick))];
        settled := settled + 1;
      }
    }
  }

  /** A log was answered by the handler and timed between two clock readings. */
  ghost predicate Timed(log: seq<Handled>, handler: (int, nat) -> Outcome, begun: int, now: int) {
    forall k | 0 <= k < |log| :: log[k].outcome == handler(log[k].id, log[k].attempt) && begun <= log[k].read <= log[k].now <= now
  }

  /** The first p webhooks of a batch have been settled. */
  ghost predicate BatchDone(first: seq<Item>, start: seq<Item>, before: seq<Handled>, rows: seq<Item>, log: seq<Handled>, items: seq<Item>, p: nat,
                            instance: string, handler: (int, nat) -> Outcome, begun: int, read: int, now: int) {
    && InOrder(start) && items == Due(start, instance, read, BATCH) && p <= |items| && begun <= read
    && InOrder(rows) && rows == Replay(first, log) && AllLegal(first, log, instance)
    && |log| == |before| + p && Timed(log, handler, begun, now)
    && (forall r | r in rows && IsDue(r, instance, read) :: r in start && r !in items[..p])
    && (forall j | p <= j < |items| :: items[j] in rows)
    && Effort(rows) + p <= Effort(start)
  }

  lemma BatchBegins(first: seq<Item>, rows: seq<Item>, before: seq<Handled>, items: seq<Item>,
                    instance: string, handler: (int, nat) -> Outcome, begun: int, read: int)
    requires InOrder(rows) && items == Due(rows, instance, read, BATCH) && begun <= read
    requires rows == Replay(first, before) && AllLegal(first, before, instance) && Timed(before, handler, begun, read)
    ensures BatchDone(first, rows, before, rows, before, items, 0, instance, handler, begun, read, read)
  {
    hide Replay, AllLegal, Due, Effort;
    DueFacts(rows, instance, read, BATCH);
    assert forall j | 0 <= j < |items| :: items[j] in items;
  }

  lemma BatchStep(first: seq<Item>, start: seq<Item>, before: seq<Handled>, rows: seq<Item>, log: seq<Handled>, items: seq<Item>, p: nat,
                  instance: string, handler: (int, nat) -> Outcome, begun: int, read: int, earlier: int, now: int)
    requires BatchDone(first, start, before, rows, log, items, p, instance, handler, begun, read, earlier)
    requires p < |items| && read <= earlier <= now
    ensures InOrder(rows) && items[p] in rows
    ensures var item := items[p]; var outcome := handler(item.id, item.attempt);
            BatchDone(first, start, before, AfterHandling(rows, item.id, outcome, now), log + [Handled(item.id, item.attempt, outcome, read, now)],
                      items, p + 1, instance, handler, begun, read, now)
  {
    hide Replay, AllLegal, Due, AfterHandling, Effort, InOrder;
    var item := items[p];
    var outcome := handler(item.id, item.attempt);
    var e := Handled(item.id, item.attempt, outcome, read, now);
    BatchItem(first, start, before, rows, log, items, p, instance, handler, begun, read, earlier);
    NextIsEarliest(start, rows, items, p, instance, read);
    OneMoreHandled(first, rows, log, item, e, instance);
    HandlingFacts(rows, item, outcome, now);
    assert items[..p + 1] == items[..p] + [item];
    assert Timed(log + [e], handler, begun, now) by {
      assert forall k | 0 <= k < |log| :: (log + [e])[k] == log[k];
    }
    assert forall r | r in Left(item, outcome, now) :: !IsDue(r, instance, read);
  }

  /** The next webhook of a batch waits, is due and occurs once. */
  lemma BatchItem(first: seq<Item>, start: seq<Item>, before: seq<Handled>, rows: seq<Item>, log: seq<Handled>, items: seq<Item>, p: nat,
                  instance: string, handler: (int, nat) -> Outcome, begun: int, read: int, now: int)
    requires BatchDone(first, start, before, rows, log, items, p, instance, handler, begun, read, now) && p < |items|
    ensures InOrder(rows) && items[p] in rows && IsDue(items[p], instance, read)
    ensures forall j | p < j < |items| :: items[j].id != items[p].id
  {
    hide Replay, AllLegal, Due, Effort;
    DueFacts(start, instance, read, BATCH);
    assert items[p] in items;
  }

  /** What still waits of a batch's reading is not earlier than the next. */
  lemma NextIsEarliest(start: seq<Item>, rows: seq<Item>, items: seq<Item>, p: nat, instance: string, read: int)
    requires InOrder(start) && items == Due(start, instance, read, BATCH) && p < |items|
    requires forall r | r in rows && IsDue(r, instance, read) :: r in start && r !in items[..p]
    ensures forall r | r in rows && IsDue(r, instance, read) :: items[p].id <= r.id
  {
    DueFacts(start, instance, read, BATCH);
    assert items[p] in items && items == items[..p] + items[p..];
    forall r | r in rows && IsDue(r, instance, read) ensures items[p].id <= r.id {
      if r in items {
        assert r in items[p..];
        var j :| 0 <= j < |items[p..]| && items[p..][j] == r;
        assert items[p + j] == r;
      }
    }
  }

  lemma OneMoreHandled(first: seq<Item>, rows: seq<Item>, log: seq<Handled>, item: Item, e: Handled, instance: string)
    requires rows == Replay(first, log) && AllLegal(first, log, instance)
    requires item in rows && e.id == item.id && e.attempt == item.attempt && IsDue(item, instance, e.read)
    requires forall r | r in rows && IsDue(r, instance, e.read) :: e.id <= r.id
    ensures var more := log + [e];
            AfterHandling(rows, e.id, e.outcome, e.now) == Replay(first, more) && AllLegal(first, more, instance)
  {
    var more := log + [e];
    assert more[..|log|] == log;
    forall k | 0 <= k < |more| ensures Legal(Replay(first, more[..k]), more[k], instance) {
      if k < |log| {
        assert more[..k] == log[..k];
      } else {
        assert Legal(rows, e, instance);
      }
    }
  }

  // ---- the life of a webhook ---------------------------------------------

  /** Everything that happens to the inbox over its life: arrivals, handlings
      that were settled, and handlings after which the drain stopped before it
      had retried or deleted the webhook, whatever the handler had done. */
  datatype Event = Arrived(item: Item) | Processed(handled: Handled) | Interrupted(id: int, outcome: Outcome)

  predicate Happens(rows: seq<Item>, event: Event) {
    match event
    case Arrived(item) => item.attempt == 0 && forall i | 0 <= i < |rows| :: rows[i].id < item.id
    case Processed(e) => exists i :: 0 <= i < |rows| && rows[i].id == e.id && rows[i].attempt == e.attempt
    case Interrupted(id, _) => exists i :: 0 <= i < |rows| && rows[i].id == id
  }

  function Apply(rows: seq<Item>, event: Event): seq<Item> {
    match event
    case Arrived(item) => rows + [item]
    case Processed(e) => AfterHandling(rows, e.id, e.outcome, e.now)
    case Interrupted(_, _) => rows
  }

  function Rows(events: seq<Event>): seq<Item> {
    if events == [] then [] else Apply(Rows(events[..|events| - 1]), events[|events| - 1])
  }

  predicate Life(events: seq<Event>) {
    events == [] || (Life(events[..|events| - 1]) && Happens(Rows(events[..|events| - 1]), events[|events| - 1]))
  }

  /** How often the handler has run for the webhook with an id since it
      arrived. */
  function Handlings(events: seq<Event>, id: int): nat {
    if events == [] then 0
    else
      var before := Handlings(events[..|events| - 1], id);
      match events[|events| - 1]
      case Arrived(item) => if item.id == id then 0 else before
      case Processed(e) => before + if e.id == id then 1 else 0
      case Interrupted(other, _) => before + if other == id then 1 else 0
  }

  /** How many of these runs were not settled. */
  function Interruptions(events: seq<Event>, id: int): nat {
    if events == [] then 0
    else
      var before := Interruptions(events[..|events| - 1], id);
      match events[|events| - 1]
      case Arrived(item) => if item.id == id then 0 else before
      case Processed(_) => before
      case Interrupted(other, _) => before + if other == id then 1 else 0
  }

  /** How its last settled handling ended, if one was since it arrived. */
  function LastOutcome(events: seq<Event>, id: int): Option<Outcome> {
    if events == [] then None
    else
      match events[|events| - 1]
      case Arrived(item) => if item.id == id then None else LastOutcome(events[..|events| - 1], id)
      case Processed(e) => if e.id == id then Some(e.outcome) else LastOutcome(events[..|events| - 1], id)
      case Interrupted(_, _) => LastOutcome(events[..|events| - 1], id)
  }

  predicate HasArrived(events: seq<Event>, id: int) {
    exists k :: 0 <= k < |events| && events[k].Arrived? && events[k].item.id == id
  }

  ghost predicate Waiting(rows: seq<Item>, id: int) { exists item :: item in rows && item.id == id }

  /** Where a webhook stands: while it waits, its attempt counts its settled
      handlings, fewer than seven; once gone, it was applied, ignored or
      invalid, or its seventh settled handling failed. */
  ghost predicate Standing(rows: seq<Item>, id: int, handlings: nat, interruptions: nat, last: Option<Outcome>, arrived: bool) {
    && (forall item | item in rows && item.id == id :: handlings == item.attempt + interruptions && item.attempt < MAX_ATTEMPTS)
    && (arrived && !Waiting(rows, id) ==>
          && 1 <= handlings - interruptions <= MAX_ATTEMPTS
          && last.Some?
          && (last == Some(Failed) ==> handlings == MAX_ATTEMPTS + interruptions))
    && (!arrived ==> !Waiting(rows, id) && handlings == interruptions == 0)
  }

  ghost predicate Stands(events: seq<Event>, id: int) {
    Standing(Rows(events), id, Handlings(events, id), Interruptions(events, id), LastOutcome(events, id), HasArrived(events, id))
  }

  /** Over the whole life of the inbox every webhook is handled at most seven
      times and once more for each time a drain was stopped before it settled
      the handling. It leaves only when it is done with or abandoned. */
  lemma {:induction false} EveryWebhookIsSettled(events: seq<Event>, id: int)
    requires Life(events)
    ensures InOrder(Rows(events)) && Stands(events, id)
    ensures Handlings(events, id) <= MAX_ATTEMPTS + Interruptions(events, id)
  {
    if events != [] {
      var before := events[..|events| - 1];
      var event := events[|events| - 1];
      EveryWebhookIsSettled(before, id);
      ArrivedBefore(before, event, id);
      assert events == before + [event];
      match event
      case Arrived(item) => ArrivalStands(before, item, id);
      case Processed(e) => HandlingStands(before, e, id);
      case Interrupted(other, outcome) => InterruptionStands(before, event, id);
    }
  }

  /** Only a settled handling that ends a webhook takes it out. */
  lemma LeavesOnlyWhenSettled(before: seq<Event>, event: Event, id: int)
    requires Life(before + [event])
    requires Waiting(Rows(before), id) && !Waiting(Rows(before + [event]), id)
    ensures event.Processed? && event.handled.id == id && Ends(event.handled.outcome, event.handled.attempt)
  {
    var events := before + [event];
    assert events[..|before|] == before;
    EveryWebhookIsSettled(before, id);
    var rows := Rows(before);
    assert forall x, more: seq<Item> | x in rows :: x in rows + more;
    match event
    case Arrived(_) =>
    case Processed(e) =>
      var i :| 0 <= i < |rows| && rows[i].id == e.id && rows[i].attempt == e.attempt;
      WaitingAfter(rows, rows[i], e, id);
    case Interrupted(_, _) =>
  }

  /** A webhook that is applied again and again, with the drain stopped each
      time before it is deleted. */
  function Restarts(item: Item, n: nat): seq<Event> {
    if n == 0 then [Arrived(item)] else Restarts(item, n - 1) + [Interrupted(item.id, Applied)]
  }

  /** No number bounds the handlings that were not settled: after any number of
      them, each of which applied it, a webhook still waits at attempt 0. */
  lemma {:induction false} InterruptionsAreUnbounded(item: Item, n: nat)
    requires item.attempt == 0
    ensures Life(Restarts(item, n)) && Rows(Restarts(item, n)) == [item]
    ensures Handlings(Restarts(item, n), item.id) == Interruptions(Restarts(item, n), item.id) == n
  {
    hide Life, Rows, Handlings, Interruptions;
    if n == 0 {
      assert [] + [Arrived(item)] == Restarts(item, 0);
      OneMoreEvent([], Arrived(item));
      NoneYet();
      CountsOneMore([], Arrived(item), item.id);
    } else {
      InterruptionsAreUnbounded(item, n - 1);
      var event := Interrupted(item.id, Applied);
      assert Rows(Restarts(item, n - 1))[0].id == item.id;
      OneMoreEvent(Restarts(item, n - 1), event);
      CountsOneMore(Restarts(item, n - 1), event, item.id);
    }
  }

  lemma NoneYet()
    ensures Life([]) && Rows([]) == []
  {
  }

  lemma CountsOneMore(before: seq<Event>, event: Event, id: int)
    ensures event.Arrived? && event.item.id == id ==> Handlings(before + [event], id) == Interruptions(before + [event], id) == 0
    ensures event.Interrupted? && event.id == id ==>
              && Handlings(before + [event], id) == Handlings(before, id) + 1
              && Interruptions(before + [event], id) == Interruptions(before, id) + 1
  {
    assert (before + [event])[..|before|] == before;
  }

  lemma OneMoreEvent(before: seq<Event>, event: Event)
    ensures Life(before + [event]) <==> Life(before) && Happens(Rows(before), event)
    ensures Rows(before + [event]) == Apply(Rows(before), event)
  {
    assert (before + [event])[..|before|] == before;
  }

  /** What a drain settled. */
  function EventsOf(log: seq<Handled>): seq<Event> { seq(|log|, k requires 0 <= k < |log| => Processed(log[k])) }

  /** What a drain settles continues any life whose rows it found. */
  lemma {:induction false} SettledContinuesLife(events: seq<Event>, log: seq<Handled>, instance: string)
    requires Life(events) && AllLegal(Rows(events), log, instance)
    ensures Life(events + EventsOf(log)) && Rows(events + EventsOf(log)) == Replay(Rows(events), log)
  {
    hide Life, Rows, AfterHandling, Happens, Legal;
    if log == [] {
      assert events + EventsOf(log) == events;
    } else {
      var n := |log| - 1;
      assert forall k | 0 <= k < n :: log[..n][..k] == log[..k];
      SettledContinuesLife(events, log[..n], instance);
      assert events + EventsOf(log) == events + EventsOf(log[..n]) + [Processed(log[n])];
      LegalHappens(Replay(Rows(events), log[..n]), log[n], instance);
      OneMoreEvent(events + EventsOf(log[..n]), Processed(log[n]));
    }
  }

  /** A drain, stopped or not, continues any life whose rows it found. */
  lemma DrainContinuesLife(events: seq<Event>, log: seq<Handled>, interrupted: Option<Item>, outcome: Outcome, instance: string)
    requires Life(events) && AllLegal(Rows(events), log, instance)
    requires interrupted.Some? ==> interrupted.value in Replay(Rows(events), log)
    ensures var all := events + EventsOf(log) + if interrupted.Some? then [Interrupted(interrupted.value.id, outcome)] else [];
            Life(all) && Rows(all) == Replay(Rows(events), log)
  {
    hide Life, Rows, AllLegal, Replay;
    SettledContinuesLife(events, log, instance);
    var before := events + EventsOf(log);
    if interrupted.Some? {
      var i :| 0 <= i < |Rows(before)| && Rows(before)[i] == interrupted.value;
      OneMoreEvent(before, Interrupted(interrupted.value.id, outcome));
    } else {
      assert before + [] == before;
    }
  }

  lemma LegalHappens(rows: seq<Item>, e: Handled, instance: string)
    requires Legal(rows, e, instance)
    ensures Happens(rows, Processed(e))
  {
    var item :| item in rows && item.id == e.id && item.attempt == e.attempt;
    var i :| 0 <= i < |rows| && rows[i] == item;
  }

  lemma ArrivedBefore(before: seq<Event>, event: Event, id: int)
    ensures HasArrived(before + [event], id) <==> HasArrived(before, id) || (event.Arrived? && event.item.id == id)
  {
    var events := before + [event];
    if HasArrived(before, id) {
      var k :| 0 <= k < |before| && before[k].Arrived? && before[k].item.id == id;
      assert events[k] == before[k];
    }
    assert events[|before|] == event;
  }

  lemma ArrivalStands(before: seq<Event>, item: Item, id: int)
    requires InOrder(Rows(before)) && Stands(before, id) && Happens(Rows(before), Arrived(item))
    requires HasArrived(before + [Arrived(item)], id) <==> HasArrived(before, id) || item.id == id
    ensures InOrder(Rows(before + [Arrived(item)])) && Stands(before + [Arrived(item)], id)
  {
    var events := before + [Arrived(item)];
    assert events[..|before|] == before;
    var rows := Rows(before);
    assert Rows(events) == rows + [item];
    assert forall x :: x in rows + [item] <==> x in rows || x == item;
    assert item.id == id ==> !Waiting(rows, id);
    assert item in rows + [item];
  }

  lemma HandlingStands(before: seq<Event>, e: Handled, id: int)
    requires InOrder(Rows(before)) && Stands(before, id) && Happens(Rows(before), Processed(e))
    requires HasArrived(before + [Processed(e)], id) <==> HasArrived(before, id)
    ensures InOrder(Rows(before + [Processed(e)])) && Stands(before + [Processed(e)], id)
  {
    var events := before + [Processed(e)];
    assert events[..|before|] == before;
    var rows := Rows(before);
    var i :| 0 <= i < |rows| && rows[i].id == e.id && rows[i].attempt == e.attempt;
    HandlingFacts(rows, rows[i], e.outcome, e.now);
    hide Standing, AfterHandling, InOrder;
    StandingAfter(rows, rows[i], e, id, Handlings(before, id), Interruptions(before, id), LastOutcome(before, id), HasArrived(before, id));
  }

  lemma StandingAfter(rows: seq<Item>, item: Item, e: Handled, id: int, handlings: nat, interruptions: nat, last: Option<Outcome>, arrived: bool)
    requires InOrder(rows) && item in rows && item.id == e.id && item.attempt == e.attempt
    requires Standing(rows, id, handlings, interruptions, last, arrived)
    ensures Standing(AfterHandling(rows, e.id, e.outcome, e.now), id, handlings + if e.id == id then 1 else 0, interruptions,
                     if e.id == id then Some(e.outcome) else last, arrived)
  {
    WaitingAfter(rows, item, e, id);
    hide AfterHandling, InOrder;
  }

  lemma InterruptionStands(before: seq<Event>, event: Event, id: int)
    requires InOrder(Rows(before)) && Stands(before, id) && event.Interrupted? && Happens(Rows(before), event)
    requires HasArrived(before + [event], id) <==> HasArrived(before, id)
    ensures InOrder(Rows(before + [event])) && Stands(before + [event], id)
  {
    assert (before + [event])[..|before|] == before;
    assert Rows(before + [event]) == Rows(before);
    var i :| 0 <= i < |Rows(before)| && Rows(before)[i].id == event.id;
    assert event.id == id ==> Waiting(Rows(before), id);
  }

  lemma WaitingAfter(rows: seq<Item>, item: Item, e: Handled, id: int)
    requires InOrder(rows) && item in rows && item.id == e.id && item.attempt == e.attempt
    ensures var after := AfterHandling(rows, e.id, e.outcome, e.now);
            if e.id != id then (Waiting(rows, id) <==> Waiting(after, id)) && (forall x: Item | x.id == id :: x in after <==> x in rows)
            else && Waiting(rows, id) && (Waiting(after, id) <==> !Ends(e.outcome, item.attempt))
                 && (forall x | x in after && x.id == id :: x.attempt == item.attempt + 1)
                 && (forall x | x in rows && x.id == id :: x == item)
  {
    HandlingFacts(rows, item, e.outcome, e.now);
    var after := AfterHandling(rows, e.id, e.outcome, e.now);
    if e.id == id && !Ends(e.outcome, item.attempt) {
      assert Left(item, e.outcome, e.now)[0] in after;
    }
  }

  // ---- when the inbox itself fails ---------------------------------------

  const SECOND := 1_000_000_000

  /** The wait after another failed drain. */
  function NextErrorDelay(previous: int): int {
    var doubled := if 2 * previous > 5 * SECOND then 2 * previous else 5 * SECOND;
    if doubled < 300 * SECOND then doubled else 300 * SECOND
  }

  /** The wait after n failed drains in a row. */
  function ErrorDelay(n: nat): int {
    if n == 0 then 0 else NextErrorDelay(ErrorDelay(n - 1))
  }

  function Power(n: nat): nat { if n == 0 then 1 else 2 * Power(n - 1) }

  lemma {:induction false} ErrorDelayDoubles(n: nat)
    requires n > 0
    ensures ErrorDelay(n) == if n <= 6 then 5 * SECOND * Power(n - 1) else 300 * SECOND
  {
    if n > 1 {
      ErrorDelayDoubles(n - 1);
    }
    if n <= 7 {
      assert Power(0) == 1 && Power(1) == 2 && Power(2) == 4 && Power(3) == 8 && Power(4) == 16 && Power(5) == 32;
    }
  }
}
