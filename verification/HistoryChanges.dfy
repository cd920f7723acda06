/** Reducing history records to the last change of each entity
    (internal/catalog/history.go, reduceHistoryByEntity). */
module HistoryChanges {
  import opened HistoryWindow
  import Sorting

  /** The latest relevant event of one entity. */
  datatype Change = Change(at: int, historyId: int, entity: int, event: EventType)

  /** The order of events: by date, then by history id. */
  predicate NotAfter(a: Record, b: Record) {
    a.date < b.date || (a.date == b.date && a.id <= b.id)
  }

  predicate ChangeLe(a: Change, b: Change) {
    a.at < b.at || (a.at == b.at && (a.historyId < b.historyId || (a.historyId == b.historyId && a.entity <= b.entity)))
  }

  predicate Counts(record: Record, through: int) {
    record.event != Irrelevant && record.date <= through
  }

  /** A relevant record that reduction refuses. */
  predicate Refused(record: Record, through: int) {
    record.event != Irrelevant && (record.date == 0 || (record.date <= through && (record.id <= 0 || record.entity <= 0)))
  }

  function ChangeOf(record: Record): Change {
    Change(record.date, record.id, record.entity, record.event)
  }

  /** The change comes from a counted record. */
  ghost predicate FromRecord(records: seq<Record>, through: int, c: Change) {
    exists x :: x in records && Counts(x, through) && c == ChangeOf(x)
  }

  predicate NotAfterChange(x: Record, c: Change) {
    x.date < c.at || (x.date == c.at && x.id <= c.historyId)
  }

  /** Some change of the record's entity is at least as late. */
  ghost predicate Covered(changes: seq<Change>, x: Record) {
    exists c :: c in changes && c.entity == x.entity && NotAfterChange(x, c)
  }

  /** latest holds, for each entity with a counted record, its last one. */
  ghost predicate LatestOf(records: seq<Record>, through: int, latest: map<int, Change>) {
    && (forall e | e in latest :: latest[e].entity == e && FromRecord(records, through, latest[e]))
    && (forall x | x in records && Counts(x, through) :: x.entity in latest && NotAfterChange(x, latest[x.entity]))
  }

  ghost predicate DistinctEntities(changes: seq<Change>) {
    forall i, j | 0 <= i < j < |changes| :: changes[i].entity != changes[j].entity
  }

  /** One change for each entity with a counted record, its last one, in order. */
  ghost predicate IsReduction(records: seq<Record>, through: int, changes: seq<Change>) {
    && (forall i, j | 0 <= i < j < |changes| :: ChangeLe(changes[i], changes[j]))
    && DistinctEntities(changes)
    && (forall c | c in changes :: FromRecord(records, through, c))
    && (forall x | x in records && Counts(x, through) :: Covered(changes, x))
  }

  /** The changes say, of each entity with a relevant record up to through,
      what its last such record says; they are ordered by date, then by history
      id, then by entity, and no entity has two. */
  ghost predicate LastChanges(records: seq<Record>, through: int, changes: seq<Change>) {
    && (forall i, j | 0 <= i < j < |changes| ::
          && changes[i].entity != changes[j].entity
          && (|| changes[i].at < changes[j].at
              || (changes[i].at == changes[j].at && changes[i].historyId < changes[j].historyId)
              || (changes[i].at == changes[j].at && changes[i].historyId == changes[j].historyId && changes[i].entity < changes[j].entity)))
    && (forall c | c in changes :: LastOf(records, through, c))
    && (forall x | x in records && x.event != Irrelevant && x.date <= through :: exists c :: c in changes && c.entity == x.entity)
  }

  ghost predicate LastOf(records: seq<Record>, through: int, c: Change) {
    && (exists x :: x in records && x.event != Irrelevant && x.date <= through && c == Change(x.date, x.id, x.entity, x.event))
    && (forall x | x in records && x.event != Irrelevant && x.date <= through && x.entity == c.entity ::
          x.date < c.at || (x.date == c.at && x.id <= c.historyId))
  }

  lemma ReductionIsLast(records: seq<Record>, through: int, changes: seq<Change>)
    requires IsReduction(records, through, changes)
    ensures LastChanges(records, through, changes)
  {
    forall c | c in changes ensures LastOf(records, through, c) {
      assert FromRecord(records, through, c);
      forall x | x in records && Counts(x, through) && x.entity == c.entity ensures NotAfterChange(x, c) {
        OnlyChange(changes, x, c);
      }
    }
    assert forall x | x in records && Counts(x, through) :: Covered(changes, x);
  }

  lemma RecordOrder()
    ensures Sorting.TotalPreorder((a: Record, b: Record) => NotAfter(a, b))
    ensures Sorting.TotalPreorder((a: Change, b: Change) => ChangeLe(a, b))
  {
  }

  /** Keeps the last relevant event of each entity up to through, or refuses a
      relevant record without identity. */
  method ReduceByEntity(records: seq<Record>, through: int) returns (r: Result<seq<Change>>)
    ensures r.Err? <==> exists x :: x in records && x.event != Irrelevant &&
                                    (x.date == 0 || (x.date <= through && (x.id <= 0 || x.entity <= 0)))
    ensures r.Ok? ==> IsReduction(records, through, r.value) && LastChanges(records, through, r.value)
  {
    hide Sorting.StableSort, LatestOf, IsReduction, LastChanges, Sorting.SortedBy, Sorting.TotalPreorder, NotAfter;
    var sorted := Sorting.StableSort(records, (a: Record, b: Record) => NotAfter(a, b));
    RecordOrder();
    Sorting.SortIsSorted(records, (a: Record, b: Record) => NotAfter(a, b));
    Sorting.SortKeepsElements(records, (a: Record, b: Record) => NotAfter(a, b));
    var complete, latest := LatestByEntity(sorted, through);
    if !complete {
      return Err(IncompleteIdentity);
    }
    SameRecords(records, sorted, through, latest);
    MapHoldsChanges(records, through, latest);
    var changes := CollectChanges(latest);
    r := Ok(Sorting.StableSort(changes, (a: Change, b: Change) => ChangeLe(a, b)));
    SortedReduction(records, through, latest, changes);
    ReductionIsLast(records, through, r.value);
  }

  method LatestByEntity(sorted: seq<Record>, through: int) returns (complete: bool, latest: map<int, Change>)
    requires Sorting.SortedBy(sorted, (a: Record, b: Record) => NotAfter(a, b))
    ensures !complete <==> exists x :: x in sorted && Refused(x, through)
    ensures complete ==> LatestOf(sorted, through, latest)
  {
    latest := map[];
    assert LatestOf(sorted[..0], through, latest);
    hide LatestOf;
    for i := 0 to |sorted|
      invariant forall j | 0 <= j < i :: !Refused(sorted[j], through)
      invariant LatestOf(sorted[..i], through, latest)
    {
      var record := sorted[i];
      assert record in sorted;
      assert sorted[..i + 1] == sorted[..i] + [record];
      if record.event == Irrelevant {
        SkipRecord(sorted[..i], record, through, latest);
        continue;
      }
      if record.date == 0 {
        return false, latest;
      }
      if record.date > through {
        SkipRecord(sorted[..i], record, through, latest);
        continue;
      }
      if record.id <= 0 || record.entity <= 0 {
        return false, latest;
      }
      AddRecord(sorted[..i], record, through, latest);
      latest := latest[record.entity := ChangeOf(record)];
    }
    assert sorted[..|sorted|] == sorted;
    complete := true;
  }

  lemma MapHoldsChanges(records: seq<Record>, through: int, latest: map<int, Change>)
    requires LatestOf(records, through, latest)
    ensures forall e | e in latest :: latest[e].entity == e
  {
  }

  lemma SkipRecord(records: seq<Record>, record: Record, through: int, latest: map<int, Change>)
    requires LatestOf(records, through, latest) && !Counts(record, through)
    ensures LatestOf(records + [record], through, latest)
  {
    assert forall c :: FromRecord(records, through, c) ==> FromRecord(records + [record], through, c);
    assert forall x :: x in records + [record] <==> x in records || x == record;
  }

  lemma AddRecord(records: seq<Record>, record: Record, through: int, latest: map<int, Change>)
    requires LatestOf(records, through, latest) && Counts(record, through)
    requires forall x | x in records :: NotAfter(x, record)
    ensures LatestOf(records + [record], through, latest[record.entity := ChangeOf(record)])
  {
    assert forall c :: FromRecord(records, through, c) ==> FromRecord(records + [record], through, c);
    assert FromRecord(records + [record], through, ChangeOf(record));
    assert forall x :: x in records + [record] <==> x in records || x == record;
  }

  lemma SameRecords(a: seq<Record>, b: seq<Record>, through: int, latest: map<int, Change>)
    requires forall x :: x in a <==> x in b
    requires LatestOf(b, through, latest)
    ensures LatestOf(a, through, latest)
  {
    assert forall c :: FromRecord(b, through, c) ==> FromRecord(a, through, c);
  }

  /** The values of the map, in any order. */
  method CollectChanges(latest: map<int, Change>) returns (changes: seq<Change>)
    requires forall e | e in latest :: latest[e].entity == e
    ensures DistinctEntities(changes)
    ensures forall c :: c in changes <==> c.entity in latest && latest[c.entity] == c
  {
    changes := [];
    var left := latest.Keys;
    while left != {}
      invariant left <= latest.Keys
      invariant DistinctEntities(changes)
      invariant forall i | 0 <= i < |changes| :: changes[i].entity in latest && changes[i].entity !in left && latest[changes[i].entity] == changes[i]
      invariant forall e | e in latest :: e in left || latest[e] in changes
      decreases left
    {
      ghost var some := Sorting.SomeMember(left);
      var e :| e in left;
      changes := changes + [latest[e]];
      left := left - {e};
    }
  }

  lemma SortedReduction(records: seq<Record>, through: int, latest: map<int, Change>, changes: seq<Change>)
    requires LatestOf(records, through, latest)
    requires DistinctEntities(changes)
    requires forall c :: c in changes <==> c.entity in latest && latest[c.entity] == c
    ensures IsReduction(records, through, Sorting.StableSort(changes, (a: Change, b: Change) => ChangeLe(a, b)))
  {
    hide Sorting.StableSort, NotAfterChange, Counts, FromRecord;
    var le := (a: Change, b: Change) => ChangeLe(a, b);
    var apart := (a: Change, b: Change) => a.entity != b.entity;
    RecordOrder();
    Sorting.SortInOrder(changes, le, apart);
    Sorting.SortKeepsElements(changes, le);
    var sorted := Sorting.StableSort(changes, le);
    forall i, j | 0 <= i < j < |sorted| ensures ChangeLe(sorted[i], sorted[j]) && sorted[i].entity != sorted[j].entity {
      assert sorted[i] in sorted && sorted[j] in sorted;
      assert Sorting.Before(sorted[i], sorted[j], le, apart);
    }
    assert forall c | c in sorted :: c.entity in latest && latest[c.entity] == c;
    forall x | x in records && Counts(x, through) ensures Covered(sorted, x) {
      assert latest[x.entity] in changes;
      assert latest[x.entity] in sorted;
    }
  }

  /** Reading a growing log and reducing it: every entity with a wanted record
      in the log at the first page has a change at least as late as all of its
      wanted records there. */
  lemma ReadThenReduced(answers: seq<Answer>, logs: seq<seq<Record>>, window: Window, changes: seq<Change>, x: Record)
    requires Honest(answers, logs) && Read(answers, window).Ok?
    requires IsReduction(Read(answers, window).value, window.through, changes)
    requires |logs| > 0 && x in logs[0] && window.Wants(x)
    ensures Covered(changes, x)
  {
    hide Read, Honest, Complete, GrewTo;
    ReadIsComplete(answers, logs, window);
    var last :| 0 <= last < |logs| && GrewTo(logs[0], logs[last]) && Complete(Read(answers, window).value, logs[0], logs[last], window);
    WantedIsRead(Read(answers, window).value, logs[0], logs[last], window, x);
  }

  lemma WantedIsRead(records: seq<Record>, first: seq<Record>, last: seq<Record>, window: Window, x: Record)
    requires Complete(records, first, last, window) && x in first && window.Wants(x)
    ensures x in records && Counts(x, window.through)
  {
  }

  /** Of a log that does not change, reading and reducing give each entity
      exactly its latest wanted record. */
  lemma FixedLogReduced(answers: seq<Answer>, log: seq<Record>, window: Window, changes: seq<Change>, c: Change)
    requires IsLog(log) && Identified(log) && |answers| == |log| / PAGE_SIZE + 1
    requires forall j | 0 <= j < |answers| :: answers[j] == Answered(PageOf(log, j + 1))
    requires Read(answers, window).Ok? && IsReduction(Read(answers, window).value, window.through, changes)
    requires c in changes
    ensures exists x :: x in log && window.Wants(x) && c == ChangeOf(x)
    ensures forall y | y in log && window.Wants(y) && y.entity == c.entity :: NotAfterChange(y, c)
  {
    hide Read, FromRecord, NotAfterChange, IsLog, Identified;
    FixedLogIsRead(answers, log, window);
    var records := Read(answers, window).value;
    assert FromRecord(records, window.through, c);
    ChangeSource(records, log, window, c);
    forall y | y in log && window.Wants(y) && y.entity == c.entity ensures NotAfterChange(y, c) {
      assert y in records && Counts(y, window.through);
      OnlyChange(changes, y, c);
    }
  }

  lemma ChangeSource(records: seq<Record>, log: seq<Record>, window: Window, c: Change)
    requires FromRecord(records, window.through, c)
    requires forall x :: x in records <==> x in log && window.Wants(x)
    ensures exists x :: x in log && window.Wants(x) && c == ChangeOf(x)
  {
  }

  lemma OnlyChange(changes: seq<Change>, y: Record, c: Change)
    requires Covered(changes, y) && c in changes && c.entity == y.entity
    requires DistinctEntities(changes)
    ensures NotAfterChange(y, c)
  {
    var d :| d in changes && d.entity == y.entity && NotAfterChange(y, d);
    var i :| 0 <= i < |changes| && changes[i] == c;
    var j :| 0 <= j < |changes| && changes[j] == d;
  }
}
