/** The search row of a media file and language: the lease shared by the worker,
    manual searches and reject, the schedule, and the owner's rejections. Each
    operation is one SQL statement or transaction (internal/store). */
module SearchLease {
  import opened Text

  datatype State = Pending | Complete

  /** A search row. The two lease columns are nullable on their own. */
  datatype Row = Row(state: State, attempt: int, failureAttempt: int, nextAt: int, queueOrder: int, priority: int, lastOutcome: string,
                     replaceInstalled: bool, owner: Option<string>, until: Option<int>, rerun: bool,
                     resume: string, resumeSignature: string, resumeSavedAt: int)
  {
    /** Leased at a time: the lease has not run out. */
    predicate Held(now: int) { until.Some? && until.value > now }
  }

  type Key = (int, string)

  /** The search rows, and the reason of every rejected candidate. */
  datatype Table = Table(rows: map<Key, Row>, rejections: map<(Key, string), string>)

  const UPGRADE := 100
  const MISSING := 200
  const IMPORT := 300
  const NO_RESUME := "[]"
  const USER := "user_"

  predicate IsUser(reason: string) { USER <= reason }

  function Lookup(rows: map<Key, Row>, key: Key): Option<Row> {
    if key in rows then Some(rows[key]) else None
  }

  function NewRow(at: int, priority: int): Row {
    Row(Pending, 0, 0, at, at, priority, "", false, None, None, false, NO_RESUME, "", 0)
  }

  function Max(a: int, b: int): int { if a < b then b else a }

  // ---- one row, one statement --------------------------------------------

  /** Claiming succeeds on a new row, an unleased or expired one, and one the
      same owner holds. */
  predicate MayClaim(row: Option<Row>, job: string, now: int) {
    row.None? || !row.value.Held(now) || row.value.owner == Some(job)
  }

  function Claimed(row: Option<Row>, job: string, now: int, lease: int): Row {
    (if row.None? then NewRow(now, MISSING) else row.value).(owner := Some(job), until := Some(now + lease), rerun := false)
  }

  function Released(row: Row): Row { row.(owner := None, until := None, rerun := false) }

  /** A rejection makes the search due now at import priority and arms the
      replacement. Whoever holds the row keeps it and is asked to run again;
      otherwise a given owner takes it. */
  function Rejected(row: Option<Row>, at: int, owner: string, lease: int): Row {
    var before := if row.None? then NewRow(at, IMPORT) else row.value;
    var due := before.(state := Pending, attempt := 0, failureAttempt := 0, nextAt := at, queueOrder := at, priority := IMPORT, lastOutcome := "",
                       replaceInstalled := true, resume := NO_RESUME, resumeSignature := "", resumeSavedAt := 0);
    if before.Held(at) then due.(rerun := true)
    else if owner != "" then due.(rerun := false, owner := Some(owner), until := Some(at + lease))
    else due
  }

  /** An upgrade search takes only a row without any lease, even an expired
      one, that is complete or pending for later. */
  predicate MayUpgrade(row: Row, next: int) {
    row.owner.None? && row.until.None? && (row.state == Complete || row.nextAt > next)
  }

  function Upgraded(row: Row, next: int): Row {
    var due := row.(state := Pending, nextAt := next, resume := NO_RESUME, resumeSignature := "");
    if row.state == Complete then
      due.(queueOrder := next, priority := UPGRADE, attempt := 0, failureAttempt := 0, lastOutcome := "", rerun := false)
    else due.(queueOrder := if row.queueOrder < next then row.queueOrder else next)
  }

  /** The worker leases a pending, due, free row. */
  predicate MayLease(row: Row, now: int) { row.state == Pending && row.nextAt <= now && !row.Held(now) }

  datatype Completion = Completion(next: int, floor: int, resetMissing: bool, advance: bool, resetFailure: bool, advanceFailure: bool,
                                   preserveOrder: bool, outcome: string, priority: int, resume: Option<(string, string, int)>, clearReplace: bool)

  function One(b: bool): int { if b then 1 else 0 }

  /** What a finished run writes: a requested rerun keeps the row queued as it
      is; otherwise the run's outcome and next attempt are taken. */
  function Completed(row: Row, c: Completion): Row {
    var ended := row.(owner := None, until := None, rerun := false);
    if row.rerun then
      ended.(state := Pending, attempt := 0, failureAttempt := 0, lastOutcome := "", resume := NO_RESUME, resumeSignature := "", resumeSavedAt := 0)
    else
      ended.(state := if c.next != 0 then Pending else Complete,
             attempt := Max(c.floor, if c.resetMissing then One(c.advance) else row.attempt + One(c.advance)),
             failureAttempt := if c.resetFailure then 0 else row.failureAttempt + One(c.advanceFailure),
             nextAt := c.next, queueOrder := if c.preserveOrder then row.queueOrder else c.next, lastOutcome := c.outcome,
             priority := if c.priority == 0 then row.priority else c.priority,
             resume := if c.resume.Some? then c.resume.value.0 else NO_RESUME,
             resumeSignature := if c.resume.Some? then c.resume.value.1 else "",
             resumeSavedAt := if c.resume.Some? then c.resume.value.2 else 0,
             replaceInstalled := row.replaceInstalled && !c.clearReplace)
  }

  function CompletedDeleted(row: Row): Row {
    Deleted(row).(replaceInstalled := false, owner := None, until := None)
  }

  /** Deleting the media ends its searches but leaves a lease to its owner. */
  function Deleted(row: Row): Row {
    row.(state := Complete, lastOutcome := "deleted", nextAt := 0, queueOrder := 0, rerun := false, resume := NO_RESUME, resumeSignature := "")
  }

  predicate MaySettle(row: Row, now: int, owner: string) {
    row.state == Pending && (!row.Held(now) || (row.owner == Some(owner) && owner != "" && !row.rerun))
  }

  function Settled(row: Row, outcome: string): Row {
    row.(state := Complete, attempt := 0, failureAttempt := 0, nextAt := 0, queueOrder := 0, lastOutcome := outcome,
         resume := NO_RESUME, resumeSignature := "", rerun := false, owner := None, until := None)
  }

  /** A catalog change schedules the search, and asks a running one to run
      again. */
  function Scheduled(row: Option<Row>, at: int, priority: int): Row {
    if row.None? then NewRow(at, priority)
    else row.value.(state := Pending, attempt := 0, failureAttempt := 0, nextAt := at, queueOrder := at, lastOutcome := "",
                    priority := Max(row.value.priority, priority), rerun := row.value.owner.Some?, resume := NO_RESUME, resumeSignature := "")
  }

  /** A catalog change that makes the media unsupported ends its search, unless
      somebody holds it. */
  function Blocked(row: Option<Row>, reason: string, at: int, priority: int): Row {
    if row.None? then NewRow(0, priority).(state := Complete, lastOutcome := reason)
    else if row.value.owner.None? then
      row.value.(state := Complete, attempt := 0, failureAttempt := 0, nextAt := 0, queueOrder := 0, lastOutcome := reason,
                 priority := Max(row.value.priority, priority), rerun := false, resume := NO_RESUME, resumeSignature := "")
    else
      row.value.(state := Pending, attempt := 0, failureAttempt := 0, nextAt := at, queueOrder := at, lastOutcome := "",
                 priority := Max(row.value.priority, priority), rerun := true, resume := NO_RESUME, resumeSignature := "")
  }

  /** The owner of a throttled search may ask for it again at once. */
  predicate MayRetry(row: Row, now: int) {
    row.lastOutcome == "throttled" && !row.Held(now) && (row.state == Complete || row.nextAt > now)
  }

  /** A media file replaced in place makes its free searches due again. */
  function Reopened(row: Row, now: int): Row {
    row.(state := Pending, nextAt := now, queueOrder := now, priority := Max(row.priority, IMPORT))
  }

  predicate ValidPriority(priority: int) { priority == UPGRADE || priority == MISSING || priority == IMPORT }

  /** Scheduling a search from scratch takes it from whoever holds it. */
  function Overwritten(row: Option<Row>, next: int, priority: int): Row {
    if row.None? then NewRow(next, priority)
    else row.value.(state := Pending, attempt := 0, failureAttempt := 0, nextAt := next, queueOrder := next, priority := priority,
                    rerun := false, owner := None, until := None, resume := NO_RESUME, resumeSignature := "")
  }

  /** A media without a search of its own gets one, unless it is unsupported. */
  function Backfilled(now: int, unsupported: string): Row {
    if unsupported == "" then NewRow(now, MISSING) else NewRow(0, MISSING).(state := Complete, lastOutcome := unsupported)
  }

  // ---- the table as an object --------------------------------------------

  /** An upserted rejection never turns the owner's rejection into another. */
  function WithRejection(rejections: map<(Key, string), string>, key: Key, candidate: string, reason: string): map<(Key, string), string> {
    if (key, candidate) in rejections && IsUser(rejections[(key, candidate)]) then rejections
    else rejections[(key, candidate) := reason]
  }

  function WithoutUser(rejections: map<(Key, string), string>, key: Key): map<(Key, string), string> {
    map r | r in rejections && !(r.0 == key && IsUser(rejections[r])) :: rejections[r]
  }

  function ForOwner(rows: map<Key, Row>, job: string): set<Key> {
    set key | key in rows && rows[key].owner == Some(job)
  }

  function AfterClaim(t: Table, key: Key, job: string, now: int, lease: int): Table {
    if job != "" && lease > 0 && MayClaim(Lookup(t.rows, key), job, now) then
      t.(rows := t.rows[key := Claimed(Lookup(t.rows, key), job, now, lease)])
    else t
  }

  function AfterRelease(t: Table, job: string): Table {
    if job == "" then t
    else t.(rows := map key | key in t.rows :: if t.rows[key].owner == Some(job) then Released(t.rows[key]) else t.rows[key])
  }

  predicate ValidRejection(reason: string, owner: string, lease: int) { IsUser(reason) && (owner == "" <==> lease <= 0) }

  function AfterReject(t: Table, key: Key, candidate: string, reason: string, at: int, owner: string, lease: int): Table {
    if ValidRejection(reason, owner, lease) then
      Table(t.rows[key := Rejected(Lookup(t.rows, key), at, owner, lease)], WithRejection(t.rejections, key, candidate, reason))
    else t
  }

  function AfterUndo(t: Table, key: Key): Table {
    Table(if key in t.rows then t.rows[key := t.rows[key].(replaceInstalled := false)] else t.rows, WithoutUser(t.rejections, key))
  }

  /** The upgrade statement; without a next time it is an error, and it inserts
      only for media that are still there and supported. */
  function AfterUpgrade(t: Table, key: Key, next: Option<int>, eligible: bool): Table {
    if next.None? || !eligible then t
    else if key !in t.rows then t.(rows := t.rows[key := NewRow(next.value, UPGRADE)])
    else if MayUpgrade(t.rows[key], next.value) then t.(rows := t.rows[key := Upgraded(t.rows[key], next.value)])
    else t
  }

  /** When a claim succeeds: the row is missing, unleased, its lease has run out
      by now, or the job itself holds it. */
  predicate Claims(t: Table, key: Key, job: string, now: int, lease: int) {
    job != "" && lease > 0 && (key in t.rows ==> t.rows[key].until == None || t.rows[key].until.value <= now || t.rows[key].owner == Some(job))
  }

  class SearchTable {
    var rows: map<Key, Row>
    var rejections: map<(Key, string), string>

    ghost function Contents(): Table
      reads this
    {
      Table(rows, rejections)
    }

    constructor ()
      ensures Contents() == Table(map[], map[])
    {
      rows, rejections := map[], map[];
    }

    method ClaimSearch(key: Key, job: string, now: int, lease: int) returns (claimed: bool)
      modifies this
      ensures Contents() == AfterClaim(old(Contents()), key, job, now, lease)
      ensures claimed <==> Claims(old(Contents()), key, job, now, lease)
      ensures claimed ==> key in rows && rows[key].owner == Some(job) && rows[key].until == Some(now + lease)
      ensures !claimed ==> Contents() == old(Contents())
    {
      if job == "" || lease <= 0 {
        return false;
      }
      if key !in rows {
        rows := rows[key := Row(Pending, 0, 0, now, now, MISSING, "", false, Some(job), Some(now + lease), false, NO_RESUME, "", 0)];
        return true;
      }
      var row := rows[key];
      if row.until == None || row.until.value <= now || row.owner == Some(job) {
        rows := rows[key := row.(owner := Some(job), until := Some(now + lease), rerun := false)];
        return true;
      }
      claimed := false;
    }

    method ReleaseSearchLease(job: string) returns (ok: bool)
      modifies this
      ensures Contents() == AfterRelease(old(Contents()), job)
      ensures ok <==> job != ""
    {
      if job == "" {
        return false;
      }
      rows := map key | key in rows :: if rows[key].owner == Some(job) then rows[key].(owner := None, until := None, rerun := false) else rows[key];
      ok := true;
    }

    method RecordUserRejection(key: Key, candidate: string, reason: string, at: int, owner: string, lease: int) returns (ok: bool)
      modifies this
      ensures Contents() == AfterReject(old(Contents()), key, candidate, reason, at, owner, lease)
      ensures ok <==> ValidRejection(reason, owner, lease)
    {
      if !IsUser(reason) || (owner == "") != (lease <= 0) {
        return false;
      }
      rejections := WithRejection(rejections, key, candidate, reason);
      var leaseOwner := if owner == "" then None else Some(owner);
      var leaseUntil := if owner == "" then None else Some(at + lease);
      if key !in rows {
        rows := rows[key := Row(Pending, 0, 0, at, at, IMPORT, "", true, leaseOwner, leaseUntil, false, NO_RESUME, "", 0)];
        return true;
      }
      var row := rows[key];
      var held := row.until != None && row.until.value > at;
      row := row.(state := Pending, attempt := 0, failureAttempt := 0, nextAt := at, queueOrder := at, priority := IMPORT, lastOutcome := "",
                  replaceInstalled := true, resume := NO_RESUME, resumeSignature := "", resumeSavedAt := 0,
                  rerun := if held then true else if leaseOwner != None then false else row.rerun,
                  owner := if held || leaseOwner == None then row.owner else leaseOwner,
                  until := if held || leaseOwner == None then row.until else leaseUntil);
      rows := rows[key := row];
      ok := true;
    }

    method ClearUserRejections(key: Key)
      modifies this
      ensures Contents() == AfterUndo(old(Contents()), key)
    {
      rejections := map r | r in rejections && !(r.0 == key && IsUser(rejections[r])) :: rejections[r];
      if key in rows {
        rows := rows[key := rows[key].(replaceInstalled := false)];
      }
    }

    method EnsureUpgradeSearch(key: Key, next: Option<int>, eligible: bool) returns (ok: bool)
      modifies this
      ensures Contents() == AfterUpgrade(old(Contents()), key, next, eligible)
      ensures ok <==> next.Some?
    {
      if next.None? {
        return false;
      }
      ok := true;
      if !eligible {
        return;
      }
      var at := next.value;
      if key !in rows {
        rows := rows[key := NewRow(at, UPGRADE)];
        return;
      }
      var row := rows[key];
      var done := row.state == Complete;
      if row.owner == None && row.until == None && (done || (row.state == Pending && row.nextAt > at)) {
        rows := rows[key := row.(
          state := Pending, nextAt := at, queueOrder := if row.state == Pending && row.queueOrder < at then row.queueOrder else at,
          priority := if done then UPGRADE else row.priority, attempt := if done then 0 else row.attempt,
          failureAttempt := if done then 0 else row.failureAttempt, lastOutcome := if done then "" else row.lastOutcome,
          rerun := if done then false else row.rerun, resume := NO_RESUME, resumeSignature := "")];
      }
    }
  }

  // ---- every run ---------------------------------------------------------

  datatype Op =
    | Claim(key: Key, job: string, now: int, lease: int)
    | Release(job: string)
    | Reject(key: Key, candidate: string, reason: string, now: int, owner: string, lease: int)
    | Undo(key: Key)
    | Upgrade(key: Key, next: Option<int>, eligible: bool)
    | LeaseDue(key: Key, job: string, now: int, lease: int)
    | Renew(job: string, now: int, lease: int)
    | Finish(job: string, completion: Completion, deleted: bool)
    | Settle(key: Key, outcome: string, now: int, job: string)
    | Schedule(key: Key, at: int, priority: int)
    | Block(key: Key, reason: string, at: int, priority: int)
    | Delete(key: Key)
    | RetryThrottled(key: Key, now: int)
    | Reopen(key: Key, now: int)
    | AutoReject(key: Key, candidate: string, reason: string)
    | ClearAuto(key: Key)
    | ClearResume(key: Key, all: bool)
    | Backfill(key: Key, now: int, unsupported: string)
    | Overwrite(key: Key, at: int, priority: int)
    | Forget(keys: set<Key>)

  /** What an operation does to one row. */
  function RowAfter(row: Option<Row>, key: Key, op: Op): Option<Row> {
    match op
    case Claim(k, job, now, lease) =>
      if k == key && job != "" && lease > 0 && MayClaim(row, job, now) then Some(Claimed(row, job, now, lease)) else row
    case Release(job) => if job != "" && OwnedBy(row, job) then Some(Released(row.value)) else row
    case Reject(k, _, reason, at, owner, lease) =>
      if k == key && ValidRejection(reason, owner, lease) then Some(Rejected(row, at, owner, lease)) else row
    case Undo(k) => if k == key && row.Some? then Some(row.value.(replaceInstalled := false)) else row
    case Upgrade(k, next, eligible) =>
      if k != key || next.None? || !eligible then row
      else if row.None? then Some(NewRow(next.value, UPGRADE))
      else if MayUpgrade(row.value, next.value) then Some(Upgraded(row.value, next.value))
      else row
    case LeaseDue(k, job, now, lease) => if k == key && row.Some? && MayLease(row.value, now) then Some(Claimed(row, job, now, lease)) else row
    case Renew(job, now, lease) => if job != "" && lease > 0 && OwnedBy(row, job) then Some(row.value.(until := Some(now + lease))) else row
    case Finish(job, c, deleted) => if OwnedBy(row, job) then Some(if deleted then CompletedDeleted(row.value) else Completed(row.value, c)) else row
    case Settle(k, outcome, now, job) => if k == key && row.Some? && MaySettle(row.value, now, job) then Some(Settled(row.value, outcome)) else row
    case Schedule(k, at, priority) => if k == key then Some(Scheduled(row, at, priority)) else row
    case Block(k, reason, at, priority) => if k == key then Some(Blocked(row, reason, at, priority)) else row
    case Delete(k) => if k == key && row.Some? then Some(Deleted(row.value)) else row
    case RetryThrottled(k, now) => if k == key && row.Some? && MayRetry(row.value, now) then Some(row.value.(state := Pending, nextAt := now)) else row
    case Reopen(k, now) => if k == key && row.Some? && !row.value.Held(now) then Some(Reopened(row.value, now)) else row
    case AutoReject(_, _, _) => row
    case ClearAuto(_) => row
    case ClearResume(k, all) =>
      if k == key && row.Some? then
        Some(row.value.(resume := NO_RESUME, resumeSignature := "", resumeSavedAt := if all then 0 else row.value.resumeSavedAt))
      else row
    case Backfill(k, now, unsupported) => if k == key && row.None? then Some(Backfilled(now, unsupported)) else row
    case Overwrite(k, next, priority) => if k == key && ValidPriority(priority) then Some(Overwritten(row, next, priority)) else row
    case Forget(keys) => if key in keys then None else row
  }

  predicate OwnedBy(row: Option<Row>, job: string) { row.Some? && row.value.owner == Some(job) }

  /** A run's completion is refused unless it holds exactly one row. */
  predicate Refused(t: Table, op: Op) { op.Finish? && |ForOwner(t.rows, op.job)| != 1 }

  function Put(rows: map<Key, Row>, key: Key, row: Option<Row>): map<Key, Row> {
    if row.Some? then rows[key := row.value] else rows
  }

  function Each(rows: map<Key, Row>, op: Op): map<Key, Row>
    requires op.Renew? || op.Finish?
  {
    map key | key in rows :: RowAfter(Some(rows[key]), key, op).value
  }

  function Apply(t: Table, op: Op): Table {
    match op
    case Claim(key, job, now, lease) => AfterClaim(t, key, job, now, lease)
    case Release(job) => AfterRelease(t, job)
    case Reject(key, candidate, reason, at, owner, lease) => AfterReject(t, key, candidate, reason, at, owner, lease)
    case Undo(key) => AfterUndo(t, key)
    case Upgrade(key, next, eligible) => AfterUpgrade(t, key, next, eligible)
    case Renew(_, _, _) => t.(rows := Each(t.rows, op))
    case Finish(_, _, _) => if Refused(t, op) then t else t.(rows := Each(t.rows, op))
    case AutoReject(key, candidate, reason) =>
      if IsUser(reason) then t else t.(rejections := WithRejection(t.rejections, key, candidate, reason))
    case LeaseDue(key, _, _, _) => t.(rows := Put(t.rows, key, RowAfter(Lookup(t.rows, key), key, op)))
    case Settle(key, _, _, _) => t.(rows := Put(t.rows, key, RowAfter(Lookup(t.rows, key), key, op)))
    case Schedule(key, _, _) => t.(rows := Put(t.rows, key, RowAfter(Lookup(t.rows, key), key, op)))
    case Block(key, _, _, _) => t.(rows := Put(t.rows, key, RowAfter(Lookup(t.rows, key), key, op)))
    case Delete(key) => t.(rows := Put(t.rows, key, RowAfter(Lookup(t.rows, key), key, op)))
    case RetryThrottled(key, _) => t.(rows := Put(t.rows, key, RowAfter(Lookup(t.rows, key), key, op)))
    case Reopen(key, _) => t.(rows := Put(t.rows, key, RowAfter(Lookup(t.rows, key), key, op)))
    case ClearAuto(key) => t.(rejections := map r | r in t.rejections && (r.0 != key || IsUser(t.rejections[r])) :: t.rejections[r])
    case ClearResume(key, _) => t.(rows := Put(t.rows, key, RowAfter(Lookup(t.rows, key), key, op)))
    case Backfill(key, _, _) => t.(rows := Put(t.rows, key, RowAfter(Lookup(t.rows, key), key, op)))
    case Overwrite(key, _, _) => t.(rows := Put(t.rows, key, RowAfter(Lookup(t.rows, key), key, op)))
    case Forget(keys) => Table(t.rows - keys, map r | r in t.rejections && r.0 !in keys :: t.rejections[r])
  }

  function Run(t: Table, ops: seq<Op>): Table {
    if ops == [] then t else Apply(Run(t, ops[..|ops| - 1]), ops[|ops| - 1])
  }

  /** Operations reach every row on its own. */
  lemma StepAtKey(t: Table, key: Key, op: Op)
    ensures Lookup(Apply(t, op).rows, key) == if Refused(t, op) then Lookup(t.rows, key) else RowAfter(Lookup(t.rows, key), key, op)
  {
    hide MayClaim, Claimed, Released, Rejected, MayUpgrade, Upgraded, MayLease, Completed, CompletedDeleted, Deleted, MaySettle, Settled, Scheduled, Blocked, MayRetry, Reopened, Overwritten, Backfilled;
  }

  /** The lease columns are null together or set together. */
  predicate LeaseAgrees(row: Row) { row.owner.Some? <==> row.until.Some? }

  lemma RowLeaseAgrees(row: Option<Row>, key: Key, op: Op)
    requires row.Some? ==> LeaseAgrees(row.value)
    ensures var r := RowAfter(row, key, op); r.Some? ==> LeaseAgrees(r.value)
  {
  }

  lemma {:induction false} LeaseColumnsAgree(ops: seq<Op>, key: Key)
    ensures var rows := Run(Table(map[], map[]), ops).rows; key in rows ==> LeaseAgrees(rows[key])
  {
    if ops != [] {
      var before := Run(Table(map[], map[]), ops[..|ops| - 1]);
      LeaseColumnsAgree(ops[..|ops| - 1], key);
      StepAtKey(before, key, ops[|ops| - 1]);
      RowLeaseAgrees(Lookup(before.rows, key), key, ops[|ops| - 1]);
    }
  }

  // ---- what the statements write -----------------------------------------

  /** All rows but one, and all rejections, as before. */
  ghost predicate OnlyRow(before: Table, after: Table, key: Key) {
    && after.rejections == before.rejections
    && (forall k | k != key :: (k in after.rows <==> k in before.rows) && (k in before.rows ==> after.rows[k] == before.rows[k]))
  }

  /** A claim that succeeds gives the row to the job for the length of the lease
      and withdraws a request for a rerun; a row it makes is pending, due and
      queued now at the priority of missing subtitles. One that does not succeed
      changes nothing. */
  lemma ClaimRules(t: Table, key: Key, job: string, now: int, lease: int)
    ensures var after := Apply(t, Claim(key, job, now, lease));
            && (!Claims(t, key, job, now, lease) ==> after == t)
            && (Claims(t, key, job, now, lease) ==>
                  && OnlyRow(t, after, key) && key in after.rows
                  && after.rows[key].owner == Some(job) && after.rows[key].until == Some(now + lease) && !after.rows[key].rerun
                  && (key in t.rows ==>
                        after.rows[key].(owner := None, until := None, rerun := false) == t.rows[key].(owner := None, until := None, rerun := false))
                  && (key !in t.rows ==>
                        after.rows[key] == Row(Pending, 0, 0, now, now, 200, "", false, Some(job), Some(now + lease), false, "[]", "", 0)))
  {
  }

  /** The worker leases exactly a pending row that is due and not leased, for
      the length of the lease. */
  lemma WorkerLeaseRules(t: Table, key: Key, job: string, now: int, lease: int)
    ensures var after := Apply(t, LeaseDue(key, job, now, lease));
            var free := key in t.rows && t.rows[key].state == Pending && t.rows[key].nextAt <= now
                        && (t.rows[key].until == None || t.rows[key].until.value <= now);
            && OnlyRow(t, after, key)
            && (!free ==> after == t)
            && (free ==> key in after.rows && after.rows[key] == t.rows[key].(owner := Some(job), until := Some(now + lease), rerun := false))
  {
    if key in t.rows && !MayLease(t.rows[key], now) {
      assert t.rows[key := t.rows[key]] == t.rows;
    }
  }

  /** Releasing clears the lease and the rerun request of the owner's rows. */
  lemma ReleaseRules(t: Table, job: string)
    ensures var after := Apply(t, Release(job));
            && after.rejections == t.rejections && after.rows.Keys == t.rows.Keys
            && forall k | k in t.rows ::
                 after.rows[k] == if job != "" && t.rows[k].owner == Some(job) then t.rows[k].(owner := None, until := None, rerun := false) else t.rows[k]
  {
  }

  /** A rejection makes the search pending, due and queued now at the priority
      of imports, with all counts and resume state cleared and the replacement
      armed. A live lease stays with its owner, who is asked to run again;
      otherwise an owner, if given, takes it for the length of the lease. */
  lemma RejectionRules(t: Table, key: Key, candidate: string, reason: string, at: int, owner: string, lease: int)
    requires "user_" <= reason && (owner == "" <==> lease <= 0)
    ensures var after := Apply(t, Reject(key, candidate, reason, at, owner, lease));
            var live := key in t.rows && t.rows[key].until.Some? && t.rows[key].until.value > at;
            && key in after.rows && (forall k | k != key :: (k in after.rows <==> k in t.rows) && (k in t.rows ==> after.rows[k] == t.rows[k]))
            && var row := after.rows[key];
            && row.state == Pending && row.attempt == 0 && row.failureAttempt == 0 && row.nextAt == at && row.queueOrder == at
            && row.priority == 300 && row.lastOutcome == "" && row.replaceInstalled
            && row.resume == "[]" && row.resumeSignature == "" && row.resumeSavedAt == 0
            && (live ==> row.rerun && row.owner == t.rows[key].owner && row.until == t.rows[key].until)
            && (!live && owner != "" ==> !row.rerun && row.owner == Some(owner) && row.until == Some(at + lease))
            && (!live && owner == "" && key in t.rows ==>
                  row.rerun == t.rows[key].rerun && row.owner == t.rows[key].owner && row.until == t.rows[key].until)
            && (!live && owner == "" && key !in t.rows ==> !row.rerun && row.owner == None && row.until == None)
  {
  }

  /** The rejections a rejection leaves: the candidate's is the owner's, and
      all others stay. */
  lemma RejectionIsRecorded(t: Table, key: Key, candidate: string, reason: string, at: int, owner: string, lease: int)
    requires "user_" <= reason && (owner == "" <==> lease <= 0)
    ensures var before, after := t.rejections, Apply(t, Reject(key, candidate, reason, at, owner, lease)).rejections;
            && (key, candidate) in after && "user_" <= after[(key, candidate)]
            && (forall r | r != (key, candidate) :: (r in after <==> r in before) && (r in before ==> after[r] == before[r]))
            && ((key, candidate) in before && "user_" <= before[(key, candidate)] ==> after[(key, candidate)] == before[(key, candidate)])
            && ((key, candidate) !in before || !("user_" <= before[(key, candidate)]) ==> after[(key, candidate)] == reason)
  {
  }

  /** An undo removes exactly the owner's rejections of the key and disarms its
      row, which otherwise stays as it is. */
  lemma UndoRules(t: Table, key: Key)
    ensures var after := Apply(t, Undo(key));
            && (forall r :: r in after.rejections <==> r in t.rejections && !(r.0 == key && "user_" <= t.rejections[r]))
            && (forall r | r in after.rejections :: after.rejections[r] == t.rejections[r])
            && after.rows.Keys == t.rows.Keys
            && forall k | k in t.rows :: after.rows[k] == if k == key then t.rows[k].(replaceInstalled := false) else t.rows[k]
  {
  }

  /** An upgrade makes a missing search pending at its time and the lowest
      priority. Of the rows without any lease it restarts a complete one and
      brings a later pending one forward; it changes no other. */
  lemma UpgradeRules(t: Table, key: Key, next: int)
    ensures var after := Apply(t, Upgrade(key, Some(next), true));
            && OnlyRow(t, after, key) && key in after.rows
            && (key !in t.rows ==> after.rows[key] == Row(Pending, 0, 0, next, next, 100, "", false, None, None, false, "[]", "", 0))
            && (key in t.rows ==>
                  var row := t.rows[key];
                  var free := row.owner == None && row.until == None;
                  && (!free || (row.state == Pending && row.nextAt <= next) ==> after.rows[key] == row)
                  && (free && row.state == Complete ==>
                        after.rows[key] == Row(Pending, 0, 0, next, next, 100, "", row.replaceInstalled, None, None, false, "[]", "", row.resumeSavedAt))
                  && (free && row.state == Pending && row.nextAt > next ==>
                        after.rows[key] == row.(nextAt := next, queueOrder := if next < row.queueOrder then next else row.queueOrder, resume := "[]", resumeSignature := "")))
  {
  }

  /** A completion is refused unless its job owns exactly one row. It ends the
      lease; a requested rerun keeps the row queued where it was, with its counts
      and resume state cleared; otherwise the run's next attempt is taken, or
      none, its counts go on from the row's or start again, and no attempt
      counts less than the floor. */
  lemma CompletionRules(t: Table, job: string, c: Completion, deleted: bool, key: Key)
    requires key in t.rows && t.rows[key].owner == Some(job)
    ensures var after := Apply(t, Finish(job, c, deleted));
            if exists k :: k in t.rows && k != key && t.rows[k].owner == Some(job) then after == t
            else
              && OnlyRow(t, after, key) && key in after.rows
              && var before, row := t.rows[key], after.rows[key];
              && row.owner == None && row.until == None && !row.rerun
              && (deleted ==> row == Row(Complete, before.attempt, before.failureAttempt, 0, 0, before.priority, "deleted", false, None, None, false, "[]", "", before.resumeSavedAt))
              && (!deleted && before.rerun ==>
                    row == Row(Pending, 0, 0, before.nextAt, before.queueOrder, before.priority, "", before.replaceInstalled, None, None, false, "[]", "", 0))
              && (!deleted && !before.rerun ==>
                    && (row.state == Pending <==> c.next != 0) && row.nextAt == c.next && row.lastOutcome == c.outcome
                    && row.queueOrder == (if c.preserveOrder then before.queueOrder else c.next)
                    && row.attempt >= c.floor
                    && (row.attempt == c.floor || row.attempt == (if c.resetMissing then 0 else before.attempt) + (if c.advance then 1 else 0))
                    && row.attempt >= (if c.resetMissing then 0 else before.attempt) + (if c.advance then 1 else 0)
                    && row.failureAttempt == (if c.resetFailure then 0 else before.failureAttempt + if c.advanceFailure then 1 else 0)
                    && row.priority == (if c.priority != 0 then c.priority else before.priority)
                    && (row.replaceInstalled <==> before.replaceInstalled && !c.clearReplace)
                    && (row.resume, row.resumeSignature, row.resumeSavedAt) == (if c.resume.Some? then c.resume.value else ("[]", "", 0)))
  {
    OwnsOne(t, job, key);
    FinishReaches(t, job, c, deleted, key);
    CompletedRow(t.rows[key], c);
    hide Completed, CompletedDeleted, ForOwner, Apply;
  }

  lemma FinishReaches(t: Table, job: string, c: Completion, deleted: bool, key: Key)
    requires key in t.rows && t.rows[key].owner == Some(job)
    ensures |ForOwner(t.rows, job)| != 1 ==> Apply(t, Finish(job, c, deleted)) == t
    ensures |ForOwner(t.rows, job)| == 1 ==>
              Apply(t, Finish(job, c, deleted)) == t.(rows := t.rows[key := if deleted then CompletedDeleted(t.rows[key]) else Completed(t.rows[key], c)])
  {
    OwnsOne(t, job, key);
    hide Completed, CompletedDeleted, ForOwner;
    if |ForOwner(t.rows, job)| == 1 {
      var after := Apply(t, Finish(job, c, deleted)).rows;
      assert forall k | k in t.rows && k != key :: after[k] == t.rows[k];
      assert after == t.rows[key := after[key]];
    }
  }

  lemma OwnsOne(t: Table, job: string, key: Key)
    requires key in t.rows && t.rows[key].owner == Some(job)
    ensures |ForOwner(t.rows, job)| == 1 <==> forall k | k in t.rows && k != key :: t.rows[k].owner != Some(job)
  {
    var owned := ForOwner(t.rows, job);
    if forall k | k in t.rows && k != key :: t.rows[k].owner != Some(job) {
      assert owned == {key};
    } else {
      var other :| other in t.rows && other != key && t.rows[other].owner == Some(job);
      assert {key, other} <= owned;
      assert |owned - {key, other}| == |owned| - 2;
    }
  }

  lemma CompletedRow(before: Row, c: Completion)
    ensures CompletedDeleted(before) ==
            Row(Complete, before.attempt, before.failureAttempt, 0, 0, before.priority, "deleted", false, None, None, false, "[]", "", before.resumeSavedAt)
    ensures before.rerun ==>
              Completed(before, c) ==
              Row(Pending, 0, 0, before.nextAt, before.queueOrder, before.priority, "", before.replaceInstalled, None, None, false, "[]", "", 0)
    ensures !before.rerun ==>
              var more := (if c.resetMissing then 0 else before.attempt) + (if c.advance then 1 else 0);
              Completed(before, c) ==
              Row(if c.next != 0 then Pending else Complete, if c.floor < more then more else c.floor,
                  if c.resetFailure then 0 else before.failureAttempt + (if c.advanceFailure then 1 else 0), c.next,
                  if c.preserveOrder then before.queueOrder else c.next, if c.priority != 0 then c.priority else before.priority, c.outcome,
                  before.replaceInstalled && !c.clearReplace, None, None, false,
                  if c.resume.Some? then c.resume.value.0 else "[]", if c.resume.Some? then c.resume.value.1 else "",
                  if c.resume.Some? then c.resume.value.2 else 0)
  {
  }

  /** What a catalog change leaves: the search pending and due at its time with
      counts and resume state cleared and at least the given priority, and a
      leased one asked to run again; if the media became unsupported, the search
      complete with the reason unless somebody holds it; and a deletion ends
      every search but leaves a lease to its owner. */
  lemma CatalogRules(t: Table, key: Key, reason: string, at: int, priority: int)
    ensures var after := Apply(t, Schedule(key, at, priority));
            && OnlyRow(t, after, key) && key in after.rows
            && (key !in t.rows ==> after.rows[key] == Row(Pending, 0, 0, at, at, priority, "", false, None, None, false, "[]", "", 0))
            && (key in t.rows ==> after.rows[key] == DueAgain(t.rows[key], at, priority, t.rows[key].owner != None))
    ensures var after := Apply(t, Block(key, reason, at, priority));
            && OnlyRow(t, after, key) && key in after.rows
            && (key !in t.rows ==> after.rows[key] == Row(Complete, 0, 0, 0, 0, priority, reason, false, None, None, false, "[]", "", 0))
            && (key in t.rows && t.rows[key].owner == None ==>
                  after.rows[key] == DueAgain(t.rows[key], 0, priority, false).(state := Complete, lastOutcome := reason))
            && (key in t.rows && t.rows[key].owner != None ==> after.rows[key] == DueAgain(t.rows[key], at, priority, true))
    ensures var after := Apply(t, Delete(key));
            && OnlyRow(t, after, key) && (key in after.rows <==> key in t.rows)
            && (key in t.rows ==>
                  var row := t.rows[key];
                  after.rows[key] == Row(Complete, row.attempt, row.failureAttempt, 0, 0, row.priority, "deleted", row.replaceInstalled,
                                         row.owner, row.until, false, "[]", "", row.resumeSavedAt))
  {
  }

  /** A row made due again; only its lease, its replacement flag and the time of
      its resume state stay. */
  function DueAgain(row: Row, at: int, priority: int, rerun: bool): Row {
    Row(Pending, 0, 0, at, at, if priority > row.priority then priority else row.priority, "", row.replaceInstalled,
        row.owner, row.until, rerun, "[]", "", row.resumeSavedAt)
  }

  /** Settling completes a pending search that nobody holds, or that the given
      owner holds without a rerun asked for, and changes nothing else. */
  lemma SettleRules(t: Table, key: Key, outcome: string, now: int, job: string)
    ensures var after := Apply(t, Settle(key, outcome, now, job));
            var settles := key in t.rows && t.rows[key].state == Pending
                           && (t.rows[key].until == None || t.rows[key].until.value <= now || (job != "" && t.rows[key].owner == Some(job) && !t.rows[key].rerun));
            && OnlyRow(t, after, key) && (!settles ==> after == t)
            && (settles ==>
                  key in after.rows && after.rows[key] ==
                  Row(Complete, 0, 0, 0, 0, t.rows[key].priority, outcome, t.rows[key].replaceInstalled, None, None, false, "[]", "", t.rows[key].resumeSavedAt))
  {
    if key in t.rows && !MaySettle(t.rows[key], now, job) {
      assert t.rows[key := t.rows[key]] == t.rows;
    }
  }

  // ---- a live lease belongs to its owner ---------------------------------

  /** Operations an owner performs on its own lease. */
  predicate ByOwner(op: Op, job: string) {
    (op.Claim? || op.Release? || op.Renew? || op.Finish? || op.Settle?) && op.job == job
  }

  predicate Before(op: Op, until: int) {
    (op.Claim? || op.Reject? || op.LeaseDue? || op.Settle? || op.RetryThrottled? || op.Reopen?) ==> op.now < until
  }

  /** The two statements that take a search from whoever holds it: scheduling
      it from scratch, which nothing in the program does, and forgetting its
      instance, which takes the row as well. */
  predicate Displaces(op: Op, key: Key) {
    (op.Overwrite? && op.key == key && ValidPriority(op.priority)) || (op.Forget? && key in op.keys)
  }

  predicate SameLease(a: Row, b: Row) { a.owner == b.owner && a.until == b.until }

  lemma LeaseLostExactly(row: Row, key: Key, op: Op)
    requires row.owner.Some? && row.until.Some?
    requires !ByOwner(op, row.owner.value) && Before(op, row.until.value)
    ensures var r := RowAfter(Some(row), key, op); (r.Some? && SameLease(r.value, row)) <==> !Displaces(op, key)
  {
  }

  /** Until its lease runs out or one of those two comes, nobody but the owner
      itself takes, clears, shortens or extends it, whatever the others do to
      the row. */
  lemma {:induction false} LiveLeaseStays(t: Table, ops: seq<Op>, key: Key)
    requires key in t.rows && t.rows[key].owner.Some? && t.rows[key].until.Some?
    requires forall i | 0 <= i < |ops| :: !ByOwner(ops[i], t.rows[key].owner.value) && Before(ops[i], t.rows[key].until.value)
    requires forall i | 0 <= i < |ops| :: !Displaces(ops[i], key)
    ensures var rows := Run(t, ops).rows; key in rows && SameLease(rows[key], t.rows[key])
  {
    if ops != [] {
      var before := Run(t, ops[..|ops| - 1]);
      var op := ops[|ops| - 1];
      LiveLeaseStays(t, ops[..|ops| - 1], key);
      StepAtKey(before, key, op);
      assert !ByOwner(op, t.rows[key].owner.value) && Before(op, t.rows[key].until.value) && !Displaces(op, key);
      LeaseLostExactly(before.rows[key], key, op);
    }
  }

  /** Mutual exclusion, from the claim on: until the lease it gave runs out, and
      unless the owner acts or one of those two statements comes, whatever the
      others do, the row stays with its owner and every claim of another job
      fails. */
  lemma ClaimExcludes(t: Table, key: Key, job: string, now: int, lease: int, ops: seq<Op>, other: string, at: int, length: int)
    requires Claims(t, key, job, now, lease)
    requires forall i | 0 <= i < |ops| :: !ByOwner(ops[i], job) && Before(ops[i], now + lease) && !Displaces(ops[i], key)
    requires other != job && at < now + lease
    ensures var held := Run(Apply(t, Claim(key, job, now, lease)), ops);
            && key in held.rows && held.rows[key].owner == Some(job) && held.rows[key].until == Some(now + lease)
            && !Claims(held, key, other, at, length) && Apply(held, Claim(key, other, at, length)) == held
  {
    hide Run, Apply;
    var claimed := Apply(t, Claim(key, job, now, lease));
    ClaimRules(t, key, job, now, lease);
    LiveLeaseStays(claimed, ops, key);
    ClaimRules(Run(claimed, ops), key, other, at, length);
  }

  /** The same for the worker's lease. */
  lemma WorkerLeaseExcludes(t: Table, key: Key, job: string, now: int, lease: int, ops: seq<Op>, other: string, at: int, length: int)
    requires key in t.rows && t.rows[key].state == Pending && t.rows[key].nextAt <= now && (t.rows[key].until == None || t.rows[key].until.value <= now)
    requires forall i | 0 <= i < |ops| :: !ByOwner(ops[i], job) && Before(ops[i], now + lease) && !Displaces(ops[i], key)
    requires other != job && at < now + lease
    ensures var held := Run(Apply(t, LeaseDue(key, job, now, lease)), ops);
            && key in held.rows && held.rows[key].owner == Some(job) && held.rows[key].until == Some(now + lease)
            && !Claims(held, key, other, at, length) && Apply(held, Claim(key, other, at, length)) == held
  {
    hide Run, Apply;
    var leased := Apply(t, LeaseDue(key, job, now, lease));
    WorkerLeaseRules(t, key, job, now, lease);
    LiveLeaseStays(leased, ops, key);
    ClaimRules(Run(leased, ops), key, other, at, length);
  }

  /** Scheduling an upgrade changes no row with a lease, live or not, and never
      makes pending work later, neither its due time nor its place. */
  lemma UpgradeOnlyBringsForward(t: Table, key: Key, next: int, eligible: bool, other: Key)
    requires other in t.rows
    ensures var rows := AfterUpgrade(t, key, Some(next), eligible).rows;
            && other in rows
            && (t.rows[other].owner.Some? || t.rows[other].until.Some? ==> rows[other] == t.rows[other])
            && (t.rows[other].state == Pending ==>
                  rows[other].state == Pending && rows[other].nextAt <= t.rows[other].nextAt && rows[other].queueOrder <= t.rows[other].queueOrder)
            && (eligible && other == key && t.rows[key].owner.None? && t.rows[key].until.None? ==>
                  rows[key].state == Pending && rows[key].nextAt <= next)
  {
  }

  // ---- rejections --------------------------------------------------------

  /** Follows one row and remembers the latest rejection that no run has
      answered yet, as the time it is due by, and whether the run that holds
      the row may answer it: because it took the row after the rejection, or
      because its lease had already lapsed when the rejection came. */
  datatype Watch = Watch(row: Option<Row>, dueBy: Option<int>, mayAnswer: bool)

  function Later(dueBy: Option<int>, at: int): Option<int> {
    if dueBy.Some? then Some(Max(dueBy.value, at)) else None
  }

  function WatchNext(w: Watch, key: Key, op: Op): Watch {
    var after := RowAfter(w.row, key, op);
    match op
    case Claim(_, _, _, _) => Watch(after, w.dueBy, w.mayAnswer || after != w.row)
    case LeaseDue(_, _, _, _) => Watch(after, w.dueBy, w.mayAnswer || after != w.row)
    case Reject(k, _, reason, at, owner, lease) =>
      if k != key || !ValidRejection(reason, owner, lease) then w
      else if w.row.None? then Watch(after, Some(at), true)
      else if w.row.value.Held(at) then Watch(after, Some(at), false)
      else Watch(after, Some(at), owner != "" || !w.row.value.rerun)
    case Undo(k) => Watch(after, if k == key then None else w.dueBy, w.mayAnswer)
    case Finish(job, _, deleted) =>
      if OwnedBy(w.row, job) && (w.mayAnswer || deleted) then Watch(after, None, w.mayAnswer) else Watch(after, w.dueBy, w.mayAnswer)
    case Settle(_, _, _, _) => Watch(after, if after != w.row then None else w.dueBy, w.mayAnswer)
    case Schedule(k, at, _) => if k == key then Watch(after, Later(w.dueBy, at), w.mayAnswer) else w
    case Block(k, _, at, _) =>
      if k != key then w else Watch(after, if w.row.Some? && w.row.value.owner.Some? then Later(w.dueBy, at) else None, w.mayAnswer)
    case Delete(k) => Watch(after, if k == key then None else w.dueBy, w.mayAnswer)
    case RetryThrottled(_, _) => Watch(after, w.dueBy, w.mayAnswer)
    case Reopen(k, now) => if k == key then Watch(after, Later(w.dueBy, now), w.mayAnswer) else w
    case Release(_) => Watch(after, w.dueBy, w.mayAnswer)
    case Upgrade(_, _, _) => Watch(after, w.dueBy, w.mayAnswer)
    case Renew(_, _, _) => Watch(after, w.dueBy, w.mayAnswer)
    case AutoReject(_, _, _) => Watch(after, w.dueBy, w.mayAnswer)
    case ClearAuto(_) => Watch(after, w.dueBy, w.mayAnswer)
    case ClearResume(_, _) => Watch(after, w.dueBy, w.mayAnswer)
    case Backfill(_, _, _) => Watch(after, w.dueBy, w.mayAnswer)
    case Overwrite(k, next, priority) => if k == key && ValidPriority(priority) then Watch(after, Later(w.dueBy, next), w.mayAnswer) else w
    case Forget(keys) => Watch(after, if key in keys then None else w.dueBy, w.mayAnswer)
  }

  /** Following a row through a run of the whole table. */
  function Watched(ops: seq<Op>, key: Key): Watch {
    if ops == [] then Watch(None, None, false)
    else
      var before := Watched(ops[..|ops| - 1], key);
      if Refused(Run(Table(map[], map[]), ops[..|ops| - 1]), ops[|ops| - 1]) then before else WatchNext(before, key, ops[|ops| - 1])
  }

  lemma {:induction false} WatchFollows(ops: seq<Op>, key: Key)
    ensures Watched(ops, key).row == Lookup(Run(Table(map[], map[]), ops).rows, key)
  {
    hide RowAfter;
    if ops != [] {
      WatchFollows(ops[..|ops| - 1], key);
      StepAtKey(Run(Table(map[], map[]), ops[..|ops| - 1]), key, ops[|ops| - 1]);
      WatchNextRow(Watched(ops[..|ops| - 1], key), key, ops[|ops| - 1]);
    }
  }

  lemma WatchNextRow(w: Watch, key: Key, op: Op)
    ensures WatchNext(w, key, op).row == RowAfter(w.row, key, op)
  {
  }

  predicate StillQueued(w: Watch) {
    w.dueBy.Some? ==>
      && w.row.Some? && w.row.value.state == Pending && w.row.value.replaceInstalled && w.row.value.nextAt <= w.dueBy.value
      && (w.row.value.owner.Some? && !w.mayAnswer ==> w.row.value.rerun)
  }

  lemma StillQueuedKept(w: Watch, key: Key, op: Op)
    requires StillQueued(w) && (w.row.Some? ==> LeaseAgrees(w.row.value))
    ensures StillQueued(WatchNext(w, key, op))
  {
  }

  /** Until it is undone, answered by a run that saw it, or the media is gone
      or unsupported, a rejection keeps its search pending, armed for
      replacement and due by the rejection (or a later catalog change), through
      every interleaving of claims, leases, renewals, completions and upgrades;
      a run that was already under way is asked to run again. */
  lemma {:induction false} RejectionWaits(ops: seq<Op>, key: Key)
    ensures StillQueued(Watched(ops, key))
  {
    hide StillQueued;
    if ops == [] {
      NothingWaits();
    } else {
      RejectionWaits(ops[..|ops| - 1], key);
      WatchFollows(ops[..|ops| - 1], key);
      LeaseColumnsAgree(ops[..|ops| - 1], key);
      StillQueuedKept(Watched(ops[..|ops| - 1], key), key, ops[|ops| - 1]);
    }
  }

  lemma NothingWaits()
    ensures StillQueued(Watch(None, None, false))
  {
  }

  /** Still queued, armed for replacement and due by a time. */
  predicate Queued(row: Row, at: int) { row.state == Pending && row.replaceInstalled && row.nextAt <= at }

  /** A run holds the row when a rejection comes, and completes. The rejection
      stays queued exactly if the run's lease was still live, or the rejection
      took the row for another owner, or, without an owner of its own, it found
      a rerun already asked for. Otherwise the completion takes it along, unless
      the run schedules itself as early and keeps the replacement armed. */
  lemma RejectionLostExactly(row: Row, at: int, owner: string, lease: int, job: string, c: Completion, key: Key)
    requires row.owner == Some(job) && row.until.Some? && (owner == "" <==> lease <= 0)
    ensures var after := RowAfter(Some(Rejected(Some(row), at, owner, lease)), key, Finish(job, c, false));
            && after.Some?
            && (Queued(after.value, at) <==>
                  || row.Held(at)
                  || (owner != "" && owner != job)
                  || (owner == "" && row.rerun)
                  || (c.next != 0 && c.next <= at && !c.clearReplace))
  {
  }

  const FILE: Key := (1, "en")
  const DONE := Completion(0, 0, false, false, false, false, false, "downloaded", 0, None, true)

  /** A claim that lapses at 10, a rejection at 20, and then the completion. */
  function LapsedRun(owner: string, lease: int): seq<Op> {
    [Claim(FILE, "run", 0, 10), Reject(FILE, "subtitle", "user_bad", 20, owner, lease), Finish("run", DONE, false)]
  }

  lemma RunThree(t: Table, a: Op, b: Op, c: Op)
    ensures Run(t, [a, b, c]) == Apply(Apply(Apply(t, a), b), c)
  {
    assert [a, b, c][..2] == [a, b] && [a, b][..1] == [a] && [a][..0] == [];
    assert Run(t, [a, b]) == Apply(Run(t, [a]), b) && Run(t, [a]) == Apply(t, a);
  }

  /** With no owner of its own the rejection is lost: it stands, but its search
      is complete. With one it waits for its owner. */
  lemma LapsedRunTakesRejection()
    ensures var t := Run(Table(map[], map[]), LapsedRun("", 0));
            HasUserRejection(t.rejections, FILE) && FILE in t.rows && t.rows[FILE].state == Complete && !t.rows[FILE].replaceInstalled
    ensures var t := Run(Table(map[], map[]), LapsedRun("reject", 60));
            HasUserRejection(t.rejections, FILE) && FILE in t.rows && Queued(t.rows[FILE], 20) && t.rows[FILE].owner == Some("reject")
  {
    LapsedRunWith("", 0);
    LapsedRunWith("reject", 60);
  }

  lemma LapsedRunWith(owner: string, lease: int)
    requires owner == "" <==> lease <= 0
    requires owner != "run"
    ensures var t := Run(Table(map[], map[]), LapsedRun(owner, lease));
            && HasUserRejection(t.rejections, FILE) && FILE in t.rows
            && t.rows[FILE] == if owner == "" then Completed(RejectedLapsed(owner, lease), DONE) else RejectedLapsed(owner, lease)
  {
    var ops := LapsedRun(owner, lease);
    var empty := Table(map[], map[]);
    RunThree(empty, ops[0], ops[1], ops[2]);
    assert USER == "user_bad"[..5] && IsUser("user_bad");
    assert RejectedLapsed(owner, lease).owner == Some(if owner == "" then "run" else owner);
    hide RowAfter, Rejected, Completed, IsUser;
    var first := Apply(empty, ops[0]);
    assert first.rows == map[FILE := Claimed(None, "run", 0, 10)];
    var second := Apply(first, ops[1]);
    RejectRecords(first, FILE, "subtitle", "user_bad", 20, owner, lease);
    assert second.rows == map[FILE := RejectedLapsed(owner, lease)];
    FinishAlone(second, RejectedLapsed(owner, lease));
  }

  lemma FinishAlone(t: Table, row: Row)
    requires t.rows == map[FILE := row]
    ensures var after := Apply(t, Finish("run", DONE, false));
            after.rejections == t.rejections
            && after.rows == map[FILE := if row.owner == Some("run") then Completed(row, DONE) else row]
  {
    assert ForOwner(t.rows, "run") == if row.owner == Some("run") then {FILE} else {};
  }

  function RejectedLapsed(owner: string, lease: int): Row { Rejected(Some(Claimed(None, "run", 0, 10)), 20, owner, lease) }

  /** A row is armed for replacement only while the owner's rejection of one of
      its candidates stands. */
  ghost predicate ArmedIsRejected(t: Table) {
    forall key | key in t.rows && t.rows[key].replaceInstalled :: HasUserRejection(t.rejections, key)
  }

  ghost predicate HasUserRejection(rejections: map<(Key, string), string>, key: Key) {
    exists candidate :: (key, candidate) in rejections && IsUser(rejections[(key, candidate)])
  }

  lemma ArmsOnlyRejecting(row: Option<Row>, key: Key, op: Op)
    requires !(op.Reject? && op.key == key && ValidRejection(op.reason, op.owner, op.lease))
    ensures var r := RowAfter(row, key, op); r.Some? && r.value.replaceInstalled ==> row.Some? && row.value.replaceInstalled && op != Undo(key)
  {
  }

  lemma RejectionsKept(t: Table, key: Key, op: Op)
    requires HasUserRejection(t.rejections, key) && op != Undo(key) && !(op.Forget? && key in op.keys)
    ensures HasUserRejection(Apply(t, op).rejections, key)
  {
    hide Each, RowAfter, IsUser;
    var candidate :| (key, candidate) in t.rejections && IsUser(t.rejections[(key, candidate)]);
    assert (key, candidate) in Apply(t, op).rejections && Apply(t, op).rejections[(key, candidate)] == t.rejections[(key, candidate)];
  }

  lemma RejectRecords(t: Table, key: Key, candidate: string, reason: string, at: int, owner: string, lease: int)
    requires ValidRejection(reason, owner, lease)
    ensures HasUserRejection(AfterReject(t, key, candidate, reason, at, owner, lease).rejections, key)
  {
    var after := AfterReject(t, key, candidate, reason, at, owner, lease).rejections;
    assert (key, candidate) in after && IsUser(after[(key, candidate)]);
  }

  lemma {:induction false} ReplacedOnlyIfRejected(ops: seq<Op>)
    ensures ArmedIsRejected(Run(Table(map[], map[]), ops))
  {
    if ops != [] {
      var t := Run(Table(map[], map[]), ops[..|ops| - 1]);
      var op := ops[|ops| - 1];
      ReplacedOnlyIfRejected(ops[..|ops| - 1]);
      var after := Apply(t, op);
      forall key | key in after.rows && after.rows[key].replaceInstalled ensures HasUserRejection(after.rejections, key) {
        StepAtKey(t, key, op);
        hide Apply, RowAfter;
        if op.Reject? && op.key == key && ValidRejection(op.reason, op.owner, op.lease) {
          RejectRecordsOp(t, op);
        } else {
          ArmsOnlyRejecting(Lookup(t.rows, key), key, op);
          hide HasUserRejection;
          if Refused(t, op) {
            RefusedChangesNothing(t, op);
          } else {
            RejectionsKept(t, key, op);
          }
        }
      }
    }
  }

  lemma RejectRecordsOp(t: Table, op: Op)
    requires op.Reject? && ValidRejection(op.reason, op.owner, op.lease)
    ensures HasUserRejection(Apply(t, op).rejections, op.key)
  {
    RejectRecords(t, op.key, op.candidate, op.reason, op.now, op.owner, op.lease);
  }

  lemma RefusedChangesNothing(t: Table, op: Op)
    requires Refused(t, op)
    ensures Apply(t, op) == t
  {
  }
}
