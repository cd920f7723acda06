/** The stored state of each provider scope: cooldowns, permanent disables and
    the transient-failure count, and the availability check that reads them
    (internal/provider/limiter.go, internal/provider/availability.go). Times
    are nanoseconds; the zero time is 0. */
module ProviderState {
  import opened Text

  const SECOND := 1_000_000_000
  const MAX_PROVIDER_COOLDOWN := 48 * 3600 * SECOND
  const TRANSIENT := "transient_"

  datatype Row = Row(reason: string, limit: int, remaining: int, resetAt: nat, failureAttempt: int, disabled: bool)

  datatype Throttle = Throttle(reason: string, limit: int, remaining: int, resetAt: nat, disabled: bool)

  type Key = (string, string)

  /** The clock as one operation reads it: to bound the reset, and then again
      for each later comparison. */
  datatype Looks = Looks(bound: nat, first: nat, second: nat, third: nat) {
    predicate Ordered() { bound <= first <= second <= third }
  }

  predicate Transient(reason: string) { TRANSIENT <= reason }

  /** A reported reset, capped at the longest cooldown. */
  function Bounded(resetAt: nat, now: nat): nat {
    if resetAt > now + MAX_PROVIDER_COOLDOWN then now + MAX_PROVIDER_COOLDOWN else resetAt
  }

  function Delay(attempt: int): nat {
    if attempt <= 1 then 60 * SECOND else if attempt == 2 then 300 * SECOND
    else if attempt == 3 then 900 * SECOND else 3600 * SECOND
  }

  /** An exhausted window that a transient failure did not open and that is
      still running. */
  predicate Guarded(row: Row, now: nat) {
    row.remaining <= 0 && row.resetAt > now && !Transient(row.reason)
  }

  // ---- one row -----------------------------------------------------------

  function Reported(t: Throttle, attempt: int, c: Looks): Row {
    Row(t.reason, t.limit, t.remaining, Bounded(t.resetAt, c.bound), attempt, t.disabled)
  }

  /** What a throttle leaves: a disabled row stays as it is, and so does a
      guarded one unless the throttle disables it or outlasts it. */
  function PersistedRow(previous: Option<Row>, t: Throttle, c: Looks): Row {
    match previous
    case None => Reported(t, 0, c)
    case Some(p) =>
      var reported := Reported(t, p.failureAttempt, c);
      var outlasts := reported.remaining <= 0 && reported.resetAt > c.second && reported.resetAt >= p.resetAt;
      if p.disabled || (!t.disabled && Guarded(p, c.first) && !outlasts) then p else reported
  }

  function AttemptAfter(previous: Option<Row>): int {
    if previous.Some? && previous.value.failureAttempt > 0 then previous.value.failureAttempt + 1 else 1
  }

  function TransientReason(reason: string): (r: string)
    ensures Transient(r)
  {
    if reason == "" then "transient_failure" else if Transient(reason) then reason else TRANSIENT + reason
  }

  /** When a transient failure's circuit closes again: at the reported reset if
      that lies ahead, otherwise after the delay for this attempt. */
  function CircuitReset(attempt: int, resetAt: nat, c: Looks): nat {
    if Bounded(resetAt, c.bound) > c.first then Bounded(resetAt, c.bound) else c.second + Delay(attempt)
  }

  /** What a transient failure leaves: disabled and guarded rows only count it,
      and a guarded one may last longer. */
  function FailedRow(previous: Option<Row>, reason: string, resetAt: nat, c: Looks): Row {
    var attempt := AttemptAfter(previous);
    var reset := CircuitReset(attempt, resetAt, c);
    if previous.Some? && previous.value.disabled then previous.value.(failureAttempt := attempt)
    else if previous.Some? && Guarded(previous.value, c.third) then
      previous.value.(failureAttempt := attempt, resetAt := if previous.value.resetAt > reset then previous.value.resetAt else reset)
    else Row(TransientReason(reason), 0, 0, reset, attempt, false)
  }

  /** What an answered request leaves: no failures counted, and no circuit. */
  function RecoveredRow(row: Row): Row {
    if row.failureAttempt == 0 then row
    else if Transient(row.reason) then Row("", 0, 0, 0, 0, false)
    else row.(failureAttempt := 0)
  }

  function Lookup(rows: map<Key, Row>, key: Key): Option<Row> {
    if key in rows then Some(rows[key]) else None
  }

  class ProviderStates {
    var rows: map<Key, Row>

    constructor ()
      ensures rows == map[]
    {
      rows := map[];
    }

    /** Stores a throttle and answers the reset that now applies. */
    method Persist(key: Key, t: Throttle, c: Looks) returns (effective: nat)
      modifies this
      ensures rows == old(rows)[key := PersistedRow(Lookup(old(rows), key), t, c)]
      ensures effective >= Bounded(t.resetAt, c.bound)
      ensures !rows[key].disabled ==> effective >= rows[key].resetAt
      ensures effective in {Bounded(t.resetAt, c.bound), rows[key].resetAt}
    {
      var resetAt := Bounded(t.resetAt, c.bound);
      var found := key in rows;
      var previous := if found then rows[key] else Row("", 0, 0, 0, 0, false);
      var state := Row(t.reason, t.limit, t.remaining, resetAt, previous.failureAttempt, t.disabled);
      if previous.disabled {
        state := previous;
      } else if !state.disabled && found && previous.remaining <= 0 && previous.resetAt > c.first && !Transient(previous.reason) {
        var exhausted := state.remaining <= 0 && state.resetAt > c.second;
        if !exhausted || state.resetAt < previous.resetAt {
          state := state.(reason := previous.reason, limit := previous.limit, remaining := previous.remaining, resetAt := previous.resetAt);
        }
      }
      rows := rows[key := state];
      effective := resetAt;
      if !state.disabled && state.resetAt > effective {
        effective := state.resetAt;
      }
    }

    method RecordTransientFailure(key: Key, reason: string, resetAt: nat, c: Looks) returns (state: Row)
      modifies this
      ensures state == FailedRow(Lookup(old(rows), key), reason, resetAt, c)
      ensures rows == old(rows)[key := state]
    {
      var attempt := 1;
      var existing := if key in rows then rows[key] else Row("", 0, 0, 0, 0, false);
      if existing.failureAttempt > 0 {
        attempt := existing.failureAttempt + 1;
      }
      var full := if reason == "" then "transient_failure" else if !(TRANSIENT <= reason) then TRANSIENT + reason else reason;
      var reset := Bounded(resetAt, c.bound);
      if !(reset > c.first) {
        var delays := [60 * SECOND, 300 * SECOND, 900 * SECOND, 3600 * SECOND];
        var index := attempt - 1;
        if index >= |delays| {
          index := |delays| - 1;
        }
        reset := c.second + delays[index];
      }
      state := Row(full, 0, 0, reset, attempt, false);
      if existing.disabled {
        state := existing.(failureAttempt := attempt);
      } else if existing.remaining <= 0 && existing.resetAt > c.third && !Transient(existing.reason) {
        state := state.(reason := existing.reason, limit := existing.limit, remaining := existing.remaining, disabled := existing.disabled);
        if existing.resetAt > state.resetAt {
          state := state.(resetAt := existing.resetAt);
        }
      }
      rows := rows[key := state];
    }

    method ResetTransientFailures(key: Key)
      modifies this
      ensures rows == if key in old(rows) then old(rows)[key := RecoveredRow(old(rows)[key])] else old(rows)
    {
      if key !in rows || rows[key].failureAttempt == 0 {
        return;
      }
      var state := rows[key].(failureAttempt := 0);
      if Transient(state.reason) {
        state := state.(reason := "", limit := 0, remaining := 0, resetAt := 0, disabled := false);
      }
      rows := rows[key := state];
    }

    /** The explicit provider retry, which forgets every scope. */
    method ClearProvider(provider: string)
      modifies this
      ensures rows == Cleared(old(rows), provider)
    {
      rows := map key | key in rows && key.0 != provider :: rows[key];
    }
  }

  function Cleared(rows: map<Key, Row>, provider: string): map<Key, Row> {
    map key | key in rows && key.0 != provider :: rows[key]
  }

  // ---- every run ---------------------------------------------------------

  datatype Op =
    | Persist(key: Key, throttle: Throttle, looks: Looks)
    | Fail(key: Key, reason: string, resetAt: nat, looks: Looks)
    | Recover(key: Key)
    | Retry(provider: string)

  function Apply(rows: map<Key, Row>, op: Op): map<Key, Row> {
    match op
    case Persist(key, t, c) => rows[key := PersistedRow(Lookup(rows, key), t, c)]
    case Fail(key, reason, resetAt, c) => rows[key := FailedRow(Lookup(rows, key), reason, resetAt, c)]
    case Recover(key) => if key in rows then rows[key := RecoveredRow(rows[key])] else rows
    case Retry(provider) => Cleared(rows, provider)
  }

  function Run(rows: map<Key, Row>, ops: seq<Op>): map<Key, Row> {
    if ops == [] then rows else Apply(Run(rows, ops[..|ops| - 1]), ops[|ops| - 1])
  }

  predicate Timed(op: Op) { op.Persist? || op.Fail? }

  /** The last clock reading of a run that starts at a given time. */
  function Clock(start: nat, ops: seq<Op>): nat {
    if ops == [] then start
    else if Timed(ops[|ops| - 1]) then ops[|ops| - 1].looks.third
    else Clock(start, ops[..|ops| - 1])
  }

  /** The clock never runs backwards. */
  predicate Timely(start: nat, ops: seq<Op>) {
    ops == [] || (
      var before := ops[..|ops| - 1];
      var op := ops[|ops| - 1];
      Timely(start, before) && (Timed(op) ==> Clock(start, before) <= op.looks.bound && op.looks.Ordered()))
  }

  /** What one operation does to one row; operations on other rows leave it. */
  function RowAfter(row: Option<Row>, key: Key, op: Op): Option<Row> {
    match op
    case Persist(k, t, c) => if k == key then Some(PersistedRow(row, t, c)) else row
    case Fail(k, reason, resetAt, c) => if k == key then Some(FailedRow(row, reason, resetAt, c)) else row
    case Recover(k) => if k == key && row.Some? then Some(RecoveredRow(row.value)) else row
    case Retry(provider) => if key.0 == provider then None else row
  }

  lemma StepAtKey(rows: map<Key, Row>, key: Key, op: Op)
    ensures Lookup(Apply(rows, op), key) == RowAfter(Lookup(rows, key), key, op)
  {
    hide PersistedRow, FailedRow, RecoveredRow;
  }

  // ---- what each operation stores ----------------------------------------

  /** A reset as reported, but at most 48 hours after the clock. */
  predicate CappedReset(stored: nat, reported: nat, now: nat) {
    stored == if reported <= now + 172_800_000_000_000 then reported else now + 172_800_000_000_000
  }

  /** A row that holds what a throttle reports. */
  predicate Carries(row: Row, t: Throttle, c: Looks) {
    && row.reason == t.reason && row.limit == t.limit && row.remaining == t.remaining && row.disabled == t.disabled
    && CappedReset(row.resetAt, t.resetAt, c.bound)
  }

  /** An exhausted window of the server's that runs at a moment. */
  predicate Running(row: Row, now: nat) { row.remaining <= 0 && row.resetAt > now && !("transient_" <= row.reason) }

  /** A throttle is stored over a missing row and over any that is neither
      disabled nor a running window, a disabling one over a running window too,
      and otherwise only if it is exhausted, lies ahead and lasts as long. A
      disabled row stays. The failure count and all other scopes always stay. */
  lemma ThrottleRules(rows: map<Key, Row>, key: Key, t: Throttle, c: Looks)
    ensures var after := Apply(rows, Persist(key, t, c));
            && key in after && after == rows[key := after[key]]
            && (key !in rows ==> Carries(after[key], t, c) && after[key].failureAttempt == 0)
            && (key in rows ==> after[key].failureAttempt == rows[key].failureAttempt)
            && (key in rows && rows[key].disabled ==> after[key] == rows[key])
            && (key in rows && !rows[key].disabled && (t.disabled || !Running(rows[key], c.first)) ==> Carries(after[key], t, c))
            && (key in rows && !rows[key].disabled && !t.disabled && Running(rows[key], c.first) ==>
                  forall reset: nat | CappedReset(reset, t.resetAt, c.bound) ::
                    if t.remaining <= 0 && c.second < reset && rows[key].resetAt <= reset then Carries(after[key], t, c) else after[key] == rows[key])
  {
  }

  /** When a transient failure is retried: at the reported reset if it lies
      ahead, otherwise 1, 5, 15 minutes or an hour after the clock, for the
      first, second, third and any later failure in a row. */
  predicate RetriedAt(reset: nat, failures: int, reported: nat, c: Looks) {
    if reported > c.first && c.first < c.bound + 172_800_000_000_000 then CappedReset(reset, reported, c.bound)
    else
      reset == c.second +
        (if failures == 1 then 60_000_000_000 else if failures == 2 then 300_000_000_000
         else if failures == 3 then 900_000_000_000 else 3_600_000_000_000)
  }

  /** A transient failure counts one more in every row. It leaves a disabled row
      otherwise as it is, extends a running window at most, and over anything
      else opens a circuit under a transient reason. */
  lemma FailureRules(rows: map<Key, Row>, key: Key, reason: string, resetAt: nat, c: Looks)
    ensures var after := Apply(rows, Fail(key, reason, resetAt, c));
            && key in after && after == rows[key := after[key]]
            && after[key].failureAttempt == (if key in rows && rows[key].failureAttempt > 0 then rows[key].failureAttempt + 1 else 1)
            && (key in rows && rows[key].disabled ==> after[key] == rows[key].(failureAttempt := after[key].failureAttempt))
            && (key in rows && !rows[key].disabled && Running(rows[key], c.third) ==>
                  forall reset: nat | RetriedAt(reset, after[key].failureAttempt, resetAt, c) ::
                    after[key] == rows[key].(failureAttempt := after[key].failureAttempt, resetAt := if reset > rows[key].resetAt then reset else rows[key].resetAt))
            && (key !in rows || (!rows[key].disabled && !Running(rows[key], c.third)) ==>
                  && RetriedAt(after[key].resetAt, after[key].failureAttempt, resetAt, c)
                  && after[key].limit == 0 && after[key].remaining == 0 && !after[key].disabled
                  && after[key].reason == (if reason == "" then "transient_failure" else if "transient_" <= reason then reason else "transient_" + reason))
  {
  }

  /** An answer clears the count of failures, and with it a transient circuit;
      a row without failures, and every other scope, stays. */
  lemma RecoveryRules(rows: map<Key, Row>, key: Key)
    ensures var after := Apply(rows, Recover(key));
            && after.Keys == rows.Keys && (forall k | k in rows && k != key :: after[k] == rows[k])
            && (key in rows ==>
                  && after[key].failureAttempt == 0
                  && (rows[key].failureAttempt == 0 || !("transient_" <= rows[key].reason) ==> after[key] == rows[key].(failureAttempt := 0))
                  && (rows[key].failureAttempt != 0 && "transient_" <= rows[key].reason ==> after[key] == Row("", 0, 0, 0, 0, false)))
  {
  }

  /** A retry forgets every scope of its provider and no other. */
  lemma RetryRules(rows: map<Key, Row>, provider: string)
    ensures var after := Apply(rows, Retry(provider));
            && (forall key :: key in after <==> key in rows && key.0 != provider)
            && (forall key | key in after :: after[key] == rows[key])
  {
  }

  lemma LongestDelay(attempt: int, resetAt: nat, c: Looks)
    requires c.Ordered()
    ensures CircuitReset(attempt, resetAt, c) <= c.third + MAX_PROVIDER_COOLDOWN
    ensures CircuitReset(attempt, resetAt, c) > c.first
  {
  }

  ghost predicate ResetsWithin(rows: map<Key, Row>, bound: nat) {
    forall key | key in rows :: rows[key].resetAt <= bound
  }

  /** No stored reset is ever more than 48 hours ahead of the clock. */
  lemma {:induction false} ResetsAreBounded(rows: map<Key, Row>, start: nat, ops: seq<Op>)
    requires ResetsWithin(rows, start + MAX_PROVIDER_COOLDOWN)
    requires Timely(start, ops)
    ensures start <= Clock(start, ops)
    ensures ResetsWithin(Run(rows, ops), Clock(start, ops) + MAX_PROVIDER_COOLDOWN)
  {
    if ops != [] {
      var before := ops[..|ops| - 1];
      var op := ops[|ops| - 1];
      ResetsAreBounded(rows, start, before);
      var prior := Run(rows, before);
      forall key | key in Run(rows, ops) ensures Run(rows, ops)[key].resetAt <= Clock(start, ops) + MAX_PROVIDER_COOLDOWN {
        StepAtKey(prior, key, op);
        RowResetBounded(Lookup(prior, key), key, op, Clock(start, before));
      }
    }
  }

  lemma RowResetBounded(row: Option<Row>, key: Key, op: Op, now: nat)
    requires row.Some? ==> row.value.resetAt <= now + MAX_PROVIDER_COOLDOWN
    requires Timed(op) ==> now <= op.looks.bound && op.looks.Ordered()
    ensures var r := RowAfter(row, key, op);
            r.Some? ==> r.value.resetAt <= (if Timed(op) then op.looks.third else now) + MAX_PROVIDER_COOLDOWN
  {
    if op.Fail? {
      LongestDelay(AttemptAfter(row), op.resetAt, op.looks);
    }
  }

  /** Nobody asks for a retry of this provider. */
  predicate NoRetry(ops: seq<Op>, provider: string) {
    forall i | 0 <= i < |ops| :: ops[i] != Retry(provider)
  }

  /** A disable whose reason is not transient survives everything but an
      explicit retry; only the failure count can move. */
  lemma {:induction false} DisabledStays(rows: map<Key, Row>, key: Key, ops: seq<Op>)
    requires key in rows && rows[key].disabled && !Transient(rows[key].reason)
    requires NoRetry(ops, key.0)
    ensures var end := Run(rows, ops);
            key in end && end[key].(failureAttempt := 0) == rows[key].(failureAttempt := 0)
  {
    if ops != [] {
      var before := ops[..|ops| - 1];
      DisabledStays(rows, key, before);
      StepAtKey(Run(rows, before), key, ops[|ops| - 1]);
    }
  }

  /** One operation lifts a disable exactly when it is a retry, or an answered
      request that finds failures counted under a transient reason. */
  lemma DisableLiftedExactly(row: Row, key: Key, op: Op)
    requires row.disabled
    ensures var r := RowAfter(Some(row), key, op);
            (r.Some? && r.value.disabled) <==>
            !(op == Retry(key.0) || (op == Recover(key) && row.failureAttempt != 0 && Transient(row.reason)))
  {
  }

  /** The condition matters: a permanent disable that was reported under a
      transient reason is gone after one failure and one answer. */
  lemma TransientDisableIsLost(key: Key, c: Looks)
    ensures var ops := [Persist(key, Throttle("transient_login", 0, 0, 0, true), c), Fail(key, "", 0, c), Recover(key)];
            var before, after := Run(map[], ops[..1]), Run(map[], ops);
            key in before && before[key].disabled && key in after && !after[key].disabled
  {
    var first := Persist(key, Throttle("transient_login", 0, 0, 0, true), c);
    var second := Fail(key, "", 0, c);
    var ops := [first, second, Recover(key)];
    assert ops[..1] == [first] && ops[..2] == [first, second];
    assert ops[..1][..0] == [] && ops[..2][..1] == [first] && [first][..0] == [];
    assert Run(map[], [first]) == Apply(map[], first);
    assert Run(map[], ops[..2]) == Apply(Apply(map[], first), second);
    assert ops == ops[..2] + [Recover(key)];
    assert Run(map[], ops) == Apply(Run(map[], ops[..2]), Recover(key));
    assert Transient("transient_login");
  }

  /** Everything the callers persist carries a reason of the server's. */
  predicate ServerReasons(ops: seq<Op>) {
    forall i | 0 <= i < |ops| && ops[i].Persist? :: !Transient(ops[i].throttle.reason)
  }

  /** A running cooldown is kept, at least as long, or the scope is disabled. */
  predicate Keeps(row: Row, resetAt: nat) {
    !Transient(row.reason) && (row.disabled || (row.remaining <= 0 && row.resetAt >= resetAt))
  }

  /** An exhausted window is neither shortened nor lifted before it ends,
      whatever throttles, failures and answers arrive meanwhile. */
  lemma {:induction false} CooldownHolds(rows: map<Key, Row>, key: Key, start: nat, ops: seq<Op>)
    requires key in rows && Guarded(rows[key], start)
    requires Timely(start, ops) && Clock(start, ops) < rows[key].resetAt
    requires NoRetry(ops, key.0) && ServerReasons(ops)
    ensures start <= Clock(start, ops)
    ensures var end := Run(rows, ops); key in end && Keeps(end[key], rows[key].resetAt)
  {
    if ops != [] {
      var before := ops[..|ops| - 1];
      var op := ops[|ops| - 1];
      assert Clock(start, before) <= Clock(start, ops);
      CooldownHolds(rows, key, start, before);
      StepAtKey(Run(rows, before), key, op);
      assert op != Retry(key.0);
      assert op.Persist? ==> !Transient(op.throttle.reason);
      KeptByOne(Run(rows, before)[key], key, op, rows[key].resetAt);
    }
  }

  lemma KeptByOne(row: Row, key: Key, op: Op, resetAt: nat)
    requires Keeps(row, resetAt) && op != Retry(key.0)
    requires op.Persist? ==> !Transient(op.throttle.reason)
    requires Timed(op) ==> op.looks.Ordered() && op.looks.third < resetAt
    ensures var r := RowAfter(Some(row), key, op); r.Some? && Keeps(r.value, resetAt)
  {
  }

  /** One operation that finds a running cooldown ends its protection exactly
      when it is a retry, disables the scope, or reports an exhausted window
      that lasts at least as long under a transient reason. */
  lemma ProtectionLostExactly(row: Row, key: Key, op: Op)
    requires !row.disabled && Guarded(row, if Timed(op) then op.looks.third else 0)
    requires Timed(op) ==> op.looks.Ordered()
    ensures var r := RowAfter(Some(row), key, op);
            (r.Some? && !r.value.disabled && Keeps(r.value, row.resetAt)) <==>
            !(op == Retry(key.0) || (op.Persist? && op.key == key && (op.throttle.disabled ||
              (Transient(op.throttle.reason) && op.throttle.remaining <= 0 && Bounded(op.throttle.resetAt, op.looks.bound) >= row.resetAt))))
  {
  }

  /** The failures of a scope since its provider last answered it. */
  function FailuresInARow(ops: seq<Op>, key: Key): nat {
    if ops == [] then 0
    else
      var op := ops[|ops| - 1];
      if op == Recover(key) || op == Retry(key.0) then 0
      else FailuresInARow(ops[..|ops| - 1], key) + if op.Fail? && op.key == key then 1 else 0
  }

  /** The stored count is exactly the failures in a row, through disables and
      cooldowns alike. */
  lemma {:induction false} AttemptCountsFailures(ops: seq<Op>, key: Key)
    ensures var row := Lookup(Run(map[], ops), key);
            (if row.Some? then row.value.failureAttempt else 0) == FailuresInARow(ops, key)
  {
    if ops != [] {
      AttemptCountsFailures(ops[..|ops| - 1], key);
      StepAtKey(Run(map[], ops[..|ops| - 1]), key, ops[|ops| - 1]);
    }
  }

  /** A failure that reports no usable reset, in a scope that nothing else
      blocks, closes the circuit for the delay its place in the row asks for. */
  lemma BackoffFollowsTheRow(ops: seq<Op>, key: Key, reason: string, c: Looks)
    requires c.Ordered()
    requires var row := Lookup(Run(map[], ops), key);
             row.Some? ==> !row.value.disabled && !Guarded(row.value, c.third)
    ensures var row := Lookup(Run(map[], ops + [Fail(key, reason, 0, c)]), key);
            row.Some? && row.value.resetAt == c.second + Delay(FailuresInARow(ops, key) + 1) && Transient(row.value.reason)
  {
    var more := ops + [Fail(key, reason, 0, c)];
    assert more[..|more| - 1] == ops;
    AttemptCountsFailures(ops, key);
    StepAtKey(Run(map[], ops), key, Fail(key, reason, 0, c));
  }

  // ---- the availability check --------------------------------------------

  /** What the check finds at one scope, and the clock when it compares. */
  datatype Found = Unreadable | Missing | Stored(row: Row)
  datatype Look = Look(scope: string, found: Found, now: nat)

  datatype Availability = Failed | Disabled(scope: string, reason: string) | Cooling(scope: string, reason: string, until: nat) | Available

  const AUTH := "auth"
  const ALL := "all"

  predicate Stops(look: Look) {
    look.found.Unreadable? || (look.found.Stored? && look.found.row.disabled)
  }

  predicate Blocks(look: Look, includeAuth: bool) {
    look.found.Stored? && (look.scope != AUTH || includeAuth) && look.found.row.remaining <= 0 && look.found.row.resetAt > look.now
  }

  predicate FirstDisabled(looks: seq<Look>, i: nat) {
    i < |looks| && looks[i].found.Stored? && looks[i].found.row.disabled && forall j | 0 <= j < i :: !Stops(looks[j])
  }

  function DisabledAt(look: Look): Availability
    requires look.found.Stored?
  {
    Disabled(look.scope, look.found.row.reason)
  }

  function CoolingAt(look: Look): Availability
    requires look.found.Stored?
  {
    Cooling(look.scope, look.found.row.reason, look.found.row.resetAt)
  }

  /** Among the first n, the blocking cooldown that ends last, and of those
      the first. */
  predicate LatestCooldown(looks: seq<Look>, n: nat, i: nat, includeAuth: bool) {
    i < n <= |looks| && Blocks(looks[i], includeAuth) && (
      var until := looks[i].found.row.resetAt;
      && (forall j | 0 <= j < n :: EndsBy(looks[j], includeAuth, until))
      && (forall j | 0 <= j < i :: EndsBefore(looks[j], includeAuth, until)))
  }

  predicate EndsBy(look: Look, includeAuth: bool, until: nat) {
    Blocks(look, includeAuth) ==> look.found.row.resetAt <= until
  }

  predicate EndsBefore(look: Look, includeAuth: bool, until: nat) {
    Blocks(look, includeAuth) ==> look.found.row.resetAt < until
  }

  /** Goes through the scopes in order and keeps the latest blocking cooldown,
      leaving at the first disabled or unreadable scope. */
  method CheckAvailability(looks: seq<Look>, includeAuth: bool) returns (r: Availability)
    ensures r.Available? <==> forall i | 0 <= i < |looks| :: !Stops(looks[i]) && !Blocks(looks[i], includeAuth)
    ensures r.Failed? <==> exists i | 0 <= i < |looks| :: looks[i].found.Unreadable? && forall j | 0 <= j < i :: !Stops(looks[j])
    ensures r.Disabled? ==> exists i | 0 <= i < |looks| :: FirstDisabled(looks, i) && r == DisabledAt(looks[i])
    ensures r.Cooling? ==> exists i | 0 <= i < |looks| :: LatestCooldown(looks, |looks|, i, includeAuth) && r == CoolingAt(looks[i])
    ensures r.Cooling? ==> forall i | 0 <= i < |looks| :: !Stops(looks[i])
  {
    r := Available;
    ghost var best := 0;
    for k := 0 to |looks|
      invariant forall i | 0 <= i < k :: !Stops(looks[i])
      invariant r.Available? || r.Cooling?
      invariant r.Available? <==> forall i | 0 <= i < k :: !Blocks(looks[i], includeAuth)
      invariant r.Cooling? ==> 0 <= best < k && LatestCooldown(looks, k, best, includeAuth) && r == CoolingAt(looks[best])
    {
      var look := looks[k];
      ghost var was := r;
      if look.found.Missing? {
        continue;
      }
      if look.found.Unreadable? {
        return Failed;
      }
      var state := look.found.row;
      if state.disabled {
        return Disabled(look.scope, state.reason);
      }
      if look.scope == AUTH && !includeAuth {
        continue;
      }
      if state.remaining <= 0 && state.resetAt > look.now && (r.Available? || state.resetAt > r.until) {
        r := Cooling(look.scope, state.reason, state.resetAt);
        best := k;
        assert forall j | 0 <= j < k :: EndsBefore(looks[j], includeAuth, state.resetAt) by {
          assert was.Cooling? ==> forall j | 0 <= j < k :: EndsBy(looks[j], includeAuth, was.until);
        }
      }
    }
  }

  /** The scopes a request of an operation must pass. */
  function ScopesOf(operation: string): seq<string> { [ALL, AUTH, operation] }

  /** Looking up a scope at some moment of a run. */
  function LookAt(rows: map<Key, Row>, provider: string, scope: string, now: nat): Look {
    Look(scope, if (provider, scope) in rows then Stored(rows[(provider, scope)]) else Missing, now)
  }

  /** While a cooldown runs, no later check of an operation it covers finds the
      provider available: neither throttles, failures nor answers that arrive
      meanwhile can open it early. */
  method CheckDuringCooldown(rows: map<Key, Row>, provider: string, operation: string, which: nat, start: nat, ops: seq<Op>,
                             nows: seq<nat>) returns (r: Availability)
    requires which < 3
    requires var key := (provider, ScopesOf(operation)[which]);
             key in rows && Guarded(rows[key], start) && Clock(start, ops) < rows[key].resetAt
             && |nows| == 3 && nows[which] < rows[key].resetAt
    requires which == 1 ==> operation == AUTH
    requires Timely(start, ops) && NoRetry(ops, provider) && ServerReasons(ops)
    ensures r.Disabled? || r.Cooling?
    ensures r.Cooling? ==> r.until >= rows[(provider, ScopesOf(operation)[which])].resetAt
  {
    var scopes := ScopesOf(operation);
    var now := Run(rows, ops);
    var looks := seq(3, i requires 0 <= i < 3 => LookAt(now, provider, scopes[i], nows[i]));
    CooldownHolds(rows, (provider, scopes[which]), start, ops);
    var held := looks[which];
    assert held.found.Stored? && held.now == nows[which];
    assert Stops(held) || Blocks(held, operation == AUTH);
    r := CheckAvailability(looks, operation == AUTH);
  }

  /** From the moment an exhausted throttle is stored until its reset, whatever
      the scope held before, no check of an operation it covers finds the
      provider available, and after a disabling one none ever does. */
  method CheckAfterThrottle(rows: map<Key, Row>, provider: string, operation: string, which: nat, t: Throttle, c: Looks, ops: seq<Op>,
                            nows: seq<nat>) returns (r: Availability)
    requires which < 3 && |nows| == 3 && (which == 1 ==> operation == AUTH)
    requires var key := (provider, ScopesOf(operation)[which]); key in rows && rows[key].disabled ==> !Transient(rows[key].reason)
    requires c.Ordered() && Timely(c.third, ops) && NoRetry(ops, provider) && ServerReasons(ops)
    requires !Transient(t.reason)
    requires t.disabled || (t.remaining <= 0 && forall reset: nat | CappedReset(reset, t.resetAt, c.bound) :: Clock(c.third, ops) < reset && nows[which] < reset)
    ensures !r.Available?
  {
    var scopes := ScopesOf(operation);
    var key := (provider, scopes[which]);
    var stored := Apply(rows, Persist(key, t, c));
    ThrottleRules(rows, key, t, c);
    StartsBefore(c.third, ops);
    assert t.disabled || CappedReset(Bounded(t.resetAt, c.bound), t.resetAt, c.bound);
    if !stored[key].disabled {
      r := CheckDuringCooldown(stored, provider, operation, which, c.third, ops, nows);
      return;
    }
    DisabledStays(stored, key, ops);
    var now := Run(stored, ops);
    var looks := seq(3, i requires 0 <= i < 3 => LookAt(now, provider, scopes[i], nows[i]));
    assert Stops(looks[which]);
    r := CheckAvailability(looks, operation == AUTH);
  }

  lemma {:induction false} StartsBefore(start: nat, ops: seq<Op>)
    requires Timely(start, ops)
    ensures start <= Clock(start, ops)
  {
    if ops != [] {
      StartsBefore(start, ops[..|ops| - 1]);
    }
  }
}
