/** Reading a window of Arr history by offset pages from a log that may grow
    at its head between requests (internal/catalog/history.go). Times are
    nanoseconds since the zero time; 0 is the zero time itself. */
module HistoryWindow {

  const PAGE_SIZE := 100
  const SECOND := 1_000_000_000

  datatype EventType = Imported | Renamed | Deleted | Irrelevant

  datatype Record = Record(id: int, date: int, event: EventType, entity: int)

  /** One answer of the history endpoint. */
  datatype Page = Page(page: int, pageSize: int, total: int, records: seq<Record>)

  datatype Answer = Answered(page: Page) | Failed

  datatype Error = ClientFailed | InvalidPage | IncompletePage | IncompleteAtEnd | IncompleteIdentity
                 | InconsistentIdentity | UnorderedPage | NoProgress

  datatype Result<+T> = Ok(value: T) | Err(error: Error)

  /** The time range asked for; since 0 has no lower bound. */
  datatype Window = Window(since: int, through: int) {
    /** The complete second that a fractional cursor lies in. */
    function Lower(): int { since - since % SECOND }

    predicate Older(date: int) { since != 0 && date < Lower() }

    predicate Wants(record: Record) {
      record.event != Irrelevant && !Older(record.date) && record.date <= through
    }
  }

  /** What reading has gathered: dates of the records seen, the wanted ones,
      the oldest date (0 before any), and the flags of the current page. */
  datatype Scan = Scan(seen: map<int, int>, records: seq<Record>, oldest: int, progress: bool, reachedLower: bool)

  function ScanRecord(s: Scan, record: Record, window: Window): Result<Scan> {
    if record.id <= 0 || record.date == 0 then Err(IncompleteIdentity)
    else if record.id in s.seen then
      if s.seen[record.id] != record.date then Err(InconsistentIdentity) else Ok(s)
    else if s.oldest != 0 && record.date > s.oldest then Err(UnorderedPage)
    else
      var next := Scan(s.seen[record.id := record.date], s.records, record.date, true, s.reachedLower);
      if window.Older(record.date) then Ok(next.(reachedLower := true))
      else if window.Wants(record) then Ok(next.(records := s.records + [record]))
      else Ok(next)
  }

  /** Scanning the first n records of a page. */
  function ScanPage(s: Scan, records: seq<Record>, n: nat, window: Window): Result<Scan>
    requires n <= |records|
  {
    if n == 0 then Ok(s)
    else match ScanPage(s, records, n - 1, window)
      case Err(e) => Err(e)
      case Ok(t) => ScanRecord(t, records[n - 1], window)
  }

  function Min(a: int, b: int): int { if a <= b then a else b }

  function Max(a: int, b: int): int { if a >= b then a else b }

  predicate WellFormed(page: Page, number: int, previousTotal: int) {
    && page.page == number && page.total >= previousTotal && page.pageSize == PAGE_SIZE
    && |page.records| <= PAGE_SIZE && page.total >= |page.records|
  }

  function Expected(total: int, number: int): int {
    Min(PAGE_SIZE, Max(0, total - (number - 1) * PAGE_SIZE))
  }

  /** Reading from page k + 1 on, after k pages. */
  function ReadFrom(answers: seq<Answer>, k: nat, s: Scan, received: int, previousTotal: int, window: Window): Result<seq<Record>>
    decreases |answers| - k
  {
    if k >= |answers| || answers[k].Failed? then Err(ClientFailed)
    else
      var page := answers[k].page;
      if !WellFormed(page, k + 1, previousTotal) then Err(InvalidPage)
      else if |page.records| != Expected(page.total, k + 1) then Err(IncompletePage)
      else if page.records == [] then
        if received < page.total then Err(IncompleteAtEnd) else Ok(s.records)
      else
        match ScanPage(s.(progress := false, reachedLower := false), page.records, |page.records|, window)
        case Err(e) => Err(e)
        case Ok(t) =>
          if !t.progress then Err(NoProgress)
          else if t.reachedLower || (page.total > 0 && received + |page.records| >= page.total) then Ok(t.records)
          else ReadFrom(answers, k + 1, t, received + |page.records|, page.total, window)
  }

  const START := Scan(map[], [], 0, false, false)

  /** What reading makes of the client's answers. */
  function Read(answers: seq<Answer>, window: Window): Result<seq<Record>> {
    ReadFrom(answers, 0, START, 0, 0, window)
  }

  /** Walks descending pages until the window is covered. The k-th request gets
      the k-th answer; a client that stops answering has failed. */
  method ReadHistoryWindow(answers: seq<Answer>, window: Window) returns (r: Result<seq<Record>>)
    ensures r == Read(answers, window)
  {
    var s := START;
    var received, previousTotal := 0, 0;
    var k := 0;
    while true
      invariant k <= |answers|
      invariant Read(answers, window) == ReadFrom(answers, k, s, received, previousTotal, window)
      decreases |answers| - k
    {
      if k == |answers| || answers[k].Failed? {
        return Err(ClientFailed);
      }
      var page := answers[k].page;
      if page.page != k + 1 || page.total < previousTotal || page.pageSize != PAGE_SIZE || |page.records| > PAGE_SIZE
         || page.total < |page.records| {
        return Err(InvalidPage);
      }
      var remaining := page.total - k * PAGE_SIZE;
      var expected := Min(PAGE_SIZE, Max(0, remaining));
      if |page.records| != expected {
        return Err(IncompletePage);
      }
      if page.records == [] {
        if received < page.total {
          return Err(IncompleteAtEnd);
        }
        return Ok(s.records);
      }
      var scanned := ReadPage(s.(progress := false, reachedLower := false), page.records, window);
      if scanned.Err? {
        return Err(scanned.error);
      }
      s := scanned.value;
      if !s.progress {
        return Err(NoProgress);
      }
      received := received + |page.records|;
      if s.reachedLower || (page.total > 0 && received >= page.total) {
        return Ok(s.records);
      }
      previousTotal := page.total;
      k := k + 1;
    }
  }

  method ReadPage(before: Scan, records: seq<Record>, window: Window) returns (r: Result<Scan>)
    ensures r == ScanPage(before, records, |records|, window)
  {
    var seen, wanted, oldest, progress, reachedLower := before.seen, before.records, before.oldest, before.progress, before.reachedLower;
    for i := 0 to |records|
      invariant ScanPage(before, records, i, window) == Ok(Scan(seen, wanted, oldest, progress, reachedLower))
    {
      var record := records[i];
      if record.id <= 0 || record.date == 0 {
        ScanFails(before, records, i + 1, window);
        return Err(IncompleteIdentity);
      }
      if record.id in seen {
        if seen[record.id] != record.date {
          ScanFails(before, records, i + 1, window);
          return Err(InconsistentIdentity);
        }
        continue;
      }
      if oldest != 0 && record.date > oldest {
        ScanFails(before, records, i + 1, window);
        return Err(UnorderedPage);
      }
      seen := seen[record.id := record.date];
      oldest := record.date;
      progress := true;
      if window.Older(record.date) {
        reachedLower := true;
        continue;
      }
      if record.date > window.through {
        continue;
      }
      if record.event != Irrelevant {
        wanted := wanted + [record];
      }
    }
    r := Ok(Scan(seen, wanted, oldest, progress, reachedLower));
  }

  lemma {:induction false} ScanFails(s: Scan, records: seq<Record>, n: nat, window: Window)
    requires n <= |records| && ScanPage(s, records, n, window).Err?
    ensures ScanPage(s, records, |records|, window) == ScanPage(s, records, n, window)
    decreases |records| - n
  {
    if n < |records| {
      ScanFails(s, records, n + 1, window);
    }
  }

  // ---- any client --------------------------------------------------------

  /** Whatever the client answers, the empty page at the end is never found
      incomplete: the earlier checks already caught every short page. */
  lemma {:induction false} EndIsNeverIncomplete(answers: seq<Answer>, k: nat, s: Scan, received: int, previousTotal: int, window: Window)
    requires received == k * PAGE_SIZE && (k > 0 ==> received < previousTotal)
    ensures ReadFrom(answers, k, s, received, previousTotal, window) != Err(IncompleteAtEnd)
    decreases |answers| - k
  {
    hide ScanPage;
    if k < |answers| && answers[k].Answered? {
      var page := answers[k].page;
      if WellFormed(page, k + 1, previousTotal) && |page.records| == Expected(page.total, k + 1) && page.records != [] {
        var scanned := ScanPage(s.(progress := false, reachedLower := false), page.records, |page.records|, window);
        ScanErrors(s.(progress := false, reachedLower := false), page.records, |page.records|, window);
        if scanned.Ok? && scanned.value.progress && !scanned.value.reachedLower && received + |page.records| < page.total {
          EndIsNeverIncomplete(answers, k + 1, scanned.value, received + |page.records|, page.total, window);
        }
      }
    }
  }

  lemma {:induction false} ScanErrors(s: Scan, records: seq<Record>, n: nat, window: Window)
    requires n <= |records|
    ensures ScanPage(s, records, n, window) != Err(IncompleteAtEnd)
  {
    if n > 0 {
      ScanErrors(s, records, n - 1, window);
    }
  }

  // ---- an honest, growing log --------------------------------------------

  /** A history log: distinct records, newest first. */
  ghost predicate IsLog(log: seq<Record>) {
    forall i, j | 0 <= i < j < |log| :: log[i].id != log[j].id && log[i].date >= log[j].date
  }

  /** later is log with newer records put in front. */
  ghost predicate GrewTo(log: seq<Record>, later: seq<Record>) {
    |log| <= |later| && later[|later| - |log|..] == log
  }

  function PageOf(log: seq<Record>, number: nat): Page
    requires number > 0
  {
    Page(number, PAGE_SIZE, |log|, log[Min(|log|, (number - 1) * PAGE_SIZE)..Min(|log|, number * PAGE_SIZE)])
  }

  /** Every answer shows its page of the log at that time, and between requests
      the log only grows at its head. */
  ghost predicate Honest(answers: seq<Answer>, logs: seq<seq<Record>>) {
    && |logs| == |answers|
    && (forall k | 0 <= k < |logs| :: IsLog(logs[k]))
    && (forall k | 0 <= k < |answers| :: answers[k].Answered? ==> answers[k].page == PageOf(logs[k], k + 1))
    && (forall k | 1 <= k < |logs| :: GrewTo(logs[k - 1], logs[k]))
  }

  ghost predicate Distinct(records: seq<Record>) {
    forall i, j | 0 <= i < j < |records| :: records[i].id != records[j].id
  }

  /** What reading has gathered from the log: base and upto delimit the log
      positions known to be seen. */
  ghost predicate Gathered(s: Scan, log: seq<Record>, base: nat, upto: nat, window: Window) {
    && upto <= |log|
    && (forall id | id in s.seen :: exists i :: 0 <= i < |log| && log[i].id == id)
    && (forall i | base <= i < upto :: log[i].id in s.seen)
    && (forall i | 0 <= i < |log| && log[i].id in s.seen && window.Wants(log[i]) :: log[i] in s.records)
    && (forall x | x in s.records :: x in log && x.id in s.seen && window.Wants(x))
    && Distinct(s.records)
    && (s.reachedLower ==> exists i :: 0 <= i < upto && window.Older(log[i].date))
  }

  lemma GatherOne(s: Scan, log: seq<Record>, base: nat, upto: nat, window: Window)
    requires IsLog(log) && Gathered(s, log, base, upto, window) && upto < |log|
    requires ScanRecord(s, log[upto], window).Ok?
    ensures Gathered(ScanRecord(s, log[upto], window).value, log, base, upto + 1, window)
  {
    var record := log[upto];
    if record.id !in s.seen {
      GatherNew(s, log, base, upto, window);
    }
  }

  lemma GatherNew(s: Scan, log: seq<Record>, base: nat, upto: nat, window: Window)
    requires IsLog(log) && Gathered(s, log, base, upto, window) && upto < |log| && log[upto].id !in s.seen
    requires ScanRecord(s, log[upto], window).Ok?
    ensures Gathered(ScanRecord(s, log[upto], window).value, log, base, upto + 1, window)
  {
    var record := log[upto];
    var t := ScanRecord(s, record, window).value;
    assert forall i | 0 <= i < |log| && i != upto :: log[i].id != record.id;
    forall i | 0 <= i < |log| && log[i].id in t.seen && window.Wants(log[i]) ensures log[i] in t.records {
      assert i != upto ==> log[i].id in s.seen;
    }
    assert Distinct(t.records) by {
      if t.records != s.records {
        DistinctAppend(s.records, record);
      }
    }
    hide Distinct;
  }

  lemma DistinctAppend(records: seq<Record>, record: Record)
    requires Distinct(records) && forall x | x in records :: x.id != record.id
    ensures Distinct(records + [record])
  {
    var more := records + [record];
    forall i, j | 0 <= i < j < |more| ensures more[i].id != more[j].id {
      assert more[i] == records[i] && records[i] in records;
    }
  }

  lemma {:induction false} GatherPage(s: Scan, log: seq<Record>, base: nat, from: nat, to: nat, n: nat, window: Window)
    requires IsLog(log) && from <= to <= |log| && n <= to - from && Gathered(s, log, base, from, window)
    requires ScanPage(s, log[from..to], n, window).Ok?
    ensures Gathered(ScanPage(s, log[from..to], n, window).value, log, base, from + n, window)
  {
    hide Gathered, ScanRecord;
    if n > 0 {
      GatherPage(s, log, base, from, to, n - 1, window);
      assert log[from..to][n - 1] == log[from + n - 1];
      GatherOne(ScanPage(s, log[from..to], n - 1, window).value, log, base, from + n - 1, window);
    }
  }

  /** Growth moves the seen positions back with the records. */
  lemma GatheredGrows(s: Scan, log: seq<Record>, later: seq<Record>, base: nat, upto: nat, next: nat, window: Window)
    requires IsLog(log) && IsLog(later) && GrewTo(log, later) && Gathered(s, log, base, upto, window) && !s.reachedLower
    requires next <= upto + |later| - |log|
    ensures Gathered(s, later, base + |later| - |log|, next, window)
  {
    var g := |later| - |log|;
    assert forall i | 0 <= i < |log| :: log[i] == later[g + i];
    forall id | id in s.seen ensures exists i :: 0 <= i < |later| && later[i].id == id {
      var i :| 0 <= i < |log| && log[i].id == id;
      assert later[g + i].id == id;
    }
    forall i | base + g <= i < next ensures later[i].id in s.seen {
      assert later[i] == log[i - g];
    }
    forall i | 0 <= i < |later| && later[i].id in s.seen && window.Wants(later[i]) ensures later[i] in s.records {
      var j :| 0 <= j < |log| && log[j].id == later[i].id;
      assert i == g + j;
    }
    forall x | x in s.records ensures x in later {
      var i :| 0 <= i < |log| && log[i] == x;
      assert later[g + i] == x;
    }
  }

  /** A relevant record of the window: not later than its end, and not before
      the second that its start lies in, if it has a start. */
  predicate InWindow(record: Record, window: Window) {
    && record.event != Irrelevant && record.date <= window.through
    && (window.since != 0 ==> record.date >= window.since - window.since % 1_000_000_000)
  }

  /** The records returned: the wanted ones of the first log, all of them, and
      no record twice; any others are wanted records that arrived meanwhile. */
  ghost predicate Complete(records: seq<Record>, first: seq<Record>, last: seq<Record>, window: Window) {
    && Distinct(records)
    && (forall x | x in first && InWindow(x, window) :: x in records)
    && (forall x | x in records :: x in last && InWindow(x, window))
  }

  lemma GatheredAll(s: Scan, first: seq<Record>, log: seq<Record>, upto: nat, window: Window)
    requires IsLog(log) && GrewTo(first, log) && Gathered(s, log, |log| - |first|, upto, window)
    requires upto == |log| || s.reachedLower
    ensures Complete(s.records, first, log, window)
  {
    if s.reachedLower {
      var p :| 0 <= p < upto && window.Older(log[p].date);
      assert forall at | p < at < |log| :: log[p].date >= log[at].date;
      assert forall at | upto <= at < |log| :: !window.Wants(log[at]);
    }
    assert forall x :: InWindow(x, window) <==> window.Wants(x);
    forall x | x in first && InWindow(x, window) ensures x in s.records {
      var i :| 0 <= i < |first| && first[i] == x;
      assert log[|log| - |first| + i] == x;
    }
  }

  lemma {:induction false} HonestReading(answers: seq<Answer>, logs: seq<seq<Record>>, k: nat, s: Scan, received: int, previousTotal: int, window: Window)
    requires Honest(answers, logs) && |answers| > 0 && k <= |answers|
    requires received == k * PAGE_SIZE
    requires k < |answers| ==>
               GrewTo(logs[0], logs[k]) &&
               Gathered(s.(reachedLower := false), logs[k], |logs[k]| - |logs[0]|, Min(|logs[k]|, k * PAGE_SIZE), window)
    ensures var r := ReadFrom(answers, k, s, received, previousTotal, window);
            r.Ok? ==> exists last | k <= last < |logs| :: GrewTo(logs[0], logs[last]) && Complete(r.value, logs[0], logs[last], window)
    decreases |answers| - k
  {
    hide Gathered, ScanPage, Complete, IsLog;
    if k < |answers| && answers[k].Answered? {
      var log := logs[k];
      var page := PageOf(log, k + 1);
      var from, to := Min(|log|, k * PAGE_SIZE), Min(|log|, (k + 1) * PAGE_SIZE);
      var base := |log| - |logs[0]|;
      var clean := s.(progress := false, reachedLower := false);
      SameGathered(s, clean, log, base, from, window);
      assert page.records == log[from..to];
      if from == to {
        if from == |log| {
          GatheredAll(clean, logs[0], log, from, window);
        }
      } else if ScanPage(clean, page.records, |page.records|, window).Ok? {
        var t := ScanPage(clean, page.records, |page.records|, window).value;
        GatherPage(clean, log, base, from, to, to - from, window);
        if t.reachedLower || to == |log| {
          GatheredAll(t, logs[0], log, to, window);
        } else if k + 1 < |answers| {
          var later := logs[k + 1];
          assert GrewTo(logs[k + 1 - 1], later);
          GrewTwice(logs[0], log, later);
          GatheredGrows(t, log, later, base, to, Min(|later|, (k + 1) * PAGE_SIZE), window);
          SameGathered(t, t.(reachedLower := false), later, |later| - |logs[0]|, Min(|later|, (k + 1) * PAGE_SIZE), window);
          HonestReading(answers, logs, k + 1, t, received + |page.records|, page.total, window);
        }
      }
    }
  }

  lemma SameGathered(s: Scan, t: Scan, log: seq<Record>, base: int, upto: int, window: Window)
    requires 0 <= base && 0 <= upto && !t.reachedLower && t.seen == s.seen && t.records == s.records
    requires Gathered(s, log, base, upto, window) || Gathered(s.(reachedLower := false), log, base, upto, window)
    ensures Gathered(t, log, base, upto, window)
  {
  }

  lemma GrewTwice(a: seq<Record>, b: seq<Record>, c: seq<Record>)
    requires GrewTo(a, b) && GrewTo(b, c)
    ensures GrewTo(a, c)
  {
    assert c[|c| - |a|..] == c[|c| - |b|..][|b| - |a|..];
  }

  /** A successful read of a growing log returns every wanted record of the log
      as it was at the first page, and no record twice. */
  lemma ReadIsComplete(answers: seq<Answer>, logs: seq<seq<Record>>, window: Window)
    requires Honest(answers, logs) && Read(answers, window).Ok?
    ensures |logs| > 0
    ensures exists last | 0 <= last < |logs| :: GrewTo(logs[0], logs[last]) && Complete(Read(answers, window).value, logs[0], logs[last], window)
  {
    assert |answers| > 0;
    assert GrewTo(logs[0], logs[0]);
    HonestReading(answers, logs, 0, START, 0, 0, window);
  }

  // ---- a log that does not change ----------------------------------------

  /** The first p records of the log are seen, and nothing else. */
  ghost predicate SeenFront(s: Scan, log: seq<Record>, p: nat) {
    && p <= |log|
    && (forall id | id in s.seen :: exists i :: 0 <= i < p && log[i].id == id)
    && s.oldest == (if p == 0 then 0 else log[p - 1].date)
  }

  ghost predicate Identified(log: seq<Record>) {
    forall i | 0 <= i < |log| :: log[i].id > 0 && log[i].date != 0
  }

  lemma {:induction false} FixedPage(s: Scan, log: seq<Record>, from: nat, to: nat, n: nat, window: Window)
    requires IsLog(log) && Identified(log) && from <= to <= |log| && n <= to - from && SeenFront(s, log, from)
    ensures ScanPage(s, log[from..to], n, window).Ok?
    ensures var t := ScanPage(s, log[from..to], n, window).value; SeenFront(t, log, from + n) && (n > 0 ==> t.progress)
  {
    if n > 0 {
      FixedPage(s, log, from, to, n - 1, window);
      assert log[from..to][n - 1] == log[from + n - 1];
      assert from + n - 1 > 0 ==> log[from + n - 2].date >= log[from + n - 1].date;
    }
  }

  lemma {:induction false} FixedReading(answers: seq<Answer>, log: seq<Record>, k: nat, s: Scan, previousTotal: int, window: Window)
    requires IsLog(log) && Identified(log) && |answers| > |log| / PAGE_SIZE
    requires forall j | 0 <= j < |answers| :: answers[j] == Answered(PageOf(log, j + 1))
    requires k * PAGE_SIZE <= |log| && SeenFront(s, log, k * PAGE_SIZE) && previousTotal <= |log|
    ensures ReadFrom(answers, k, s, k * PAGE_SIZE, previousTotal, window).Ok?
    decreases |answers| - k
  {
    hide ScanPage, SeenFront;
    var page := PageOf(log, k + 1);
    var to := Min(|log|, (k + 1) * PAGE_SIZE);
    var clean := s.(progress := false, reachedLower := false);
    assert SeenFront(clean, log, k * PAGE_SIZE) by { SameFront(s, clean, log, k * PAGE_SIZE); }
    FixedPage(clean, log, k * PAGE_SIZE, to, to - k * PAGE_SIZE, window);
    assert page.records == log[k * PAGE_SIZE..to];
    if page.records != [] && to < |log| {
      var t := ScanPage(clean, page.records, |page.records|, window).value;
      FixedReading(answers, log, k + 1, t, |log|, window);
    }
  }

  lemma SameFront(s: Scan, t: Scan, log: seq<Record>, p: nat)
    requires SeenFront(s, log, p) && t.seen == s.seen && t.oldest == s.oldest
    ensures SeenFront(t, log, p)
  {
  }

  /** A log of identified records that does not change while it is read is read
      successfully, in |log| / 100 + 1 requests at most, and the result is
      exactly its wanted records. */
  lemma FixedLogIsRead(answers: seq<Answer>, log: seq<Record>, window: Window)
    requires IsLog(log) && Identified(log) && |answers| == |log| / PAGE_SIZE + 1
    requires forall j | 0 <= j < |answers| :: answers[j] == Answered(PageOf(log, j + 1))
    ensures Read(answers, window).Ok?
    ensures Distinct(Read(answers, window).value)
    ensures forall x :: x in Read(answers, window).value <==> x in log && InWindow(x, window)
  {
    hide ReadFrom;
    FixedReading(answers, log, 0, START, 0, window);
    var logs := seq(|answers|, j => log);
    ReadIsComplete(answers, logs, window);
    var last :| 0 <= last < |logs| && GrewTo(logs[0], logs[last]) && Complete(Read(answers, window).value, logs[0], logs[last], window);
  }

  // ---- what a reading accepts and returns --------------------------------

  /** The records of the first n answers. */
  function Received(answers: seq<Answer>, n: nat): seq<Record>
    requires n <= |answers|
  {
    if n == 0 then [] else Received(answers, n - 1) + if answers[n - 1].Answered? then answers[n - 1].page.records else []
  }

  predicate Seen(records: seq<Record>, id: int) { exists i | 0 <= i < |records| :: records[i].id == id }

  /** The first record of each id, in order. */
  function Firsts(records: seq<Record>): seq<Record> {
    if records == [] then []
    else
      var before, last := records[..|records| - 1], records[|records| - 1];
      Firsts(before) + if Seen(before, last.id) then [] else [last]
  }

  function Wanted(records: seq<Record>, window: Window): seq<Record> {
    if records == [] then []
    else
      var last := records[|records| - 1];
      Wanted(records[..|records| - 1], window) + if InWindow(last, window) then [last] else []
  }

  /** Records with an id and a date, one date for each id, whose first
      appearances never get later. */
  ghost predicate InOrder(records: seq<Record>) {
    && (forall i | 0 <= i < |records| :: records[i].id > 0 && records[i].date != 0)
    && SameDates(records)
    && NeverLater(Firsts(records))
  }

  ghost predicate SameDates(records: seq<Record>) {
    forall i, j | 0 <= i < |records| && 0 <= j < |records| && records[i].id == records[j].id :: records[i].date == records[j].date
  }

  ghost predicate NeverLater(records: seq<Record>) {
    forall i, j | 0 <= i < j < |records| :: records[i].date >= records[j].date
  }

  /** Answer k is the page asked for, with a hundred records or all that are
      left, of a log that has not shrunk, and unless it is empty some record on
      it is new. */
  ghost predicate RightPage(answers: seq<Answer>, k: nat)
    requires k < |answers|
  {
    && answers[k].Answered?
    && var page := answers[k].page;
    && page.page == k + 1 && page.pageSize == 100 && page.total >= 0
    && (k > 0 && answers[k - 1].Answered? ==> page.total >= answers[k - 1].page.total)
    && |page.records| == (if page.total - 100 * k > 100 then 100 else if page.total > 100 * k then page.total - 100 * k else 0)
    && (page.records != [] ==> exists i | 0 <= i < |page.records| :: !Seen(Received(answers, k), page.records[i].id))
  }

  /** Reading needs no page after the first n: the last is empty, or completes
      the log, or brings a new record from before the window. */
  ghost predicate Covers(answers: seq<Answer>, n: nat, window: Window)
    requires 0 < n <= |answers|
  {
    && answers[n - 1].Answered?
    && var page := answers[n - 1].page;
       || page.records == [] || |Received(answers, n)| >= page.total
       || exists i | 0 <= i < |page.records| :: BeforeWindow(Received(answers, n - 1), page.records[i], window)
  }

  predicate BeforeWindow(earlier: seq<Record>, record: Record, window: Window) {
    !Seen(earlier, record.id) && window.since != 0 && record.date < window.since - window.since % 1_000_000_000
  }

  /** The first n pages are right and in order, and no fewer cover the window. */
  ghost predicate ReadsOn(answers: seq<Answer>, n: nat, window: Window)
    requires n <= |answers|
  {
    && (forall k | 0 <= k < n :: RightPage(answers, k))
    && InOrder(Received(answers, n))
    && (forall m | 0 < m < n :: !Covers(answers, m, window))
  }

  ghost predicate DatesOf(dates: map<int, int>, records: seq<Record>) {
    && (forall id :: id in dates <==> Seen(records, id))
    && (forall i | 0 <= i < |records| :: records[i].id in dates && dates[records[i].id] == records[i].date)
  }

  lemma DatesMore(dates: map<int, int>, records: seq<Record>, record: Record)
    requires DatesOf(dates, records) && (record.id in dates ==> dates[record.id] == record.date)
    ensures DatesOf(dates[record.id := record.date], records + [record])
  {
    var more := records + [record];
    assert more[|records|] == record;
    assert forall i | 0 <= i < |records| :: more[i] == records[i];
    SeenMore(records, record);
    hide Seen;
  }

  /** Scanning has followed the records. */
  ghost predicate Follows(s: Scan, records: seq<Record>, window: Window) {
    && DatesOf(s.seen, records)
    && s.records == Wanted(Firsts(records), window)
    && s.oldest == (if Firsts(records) == [] then 0 else Firsts(records)[|Firsts(records)| - 1].date)
  }

  /** One more record continues the order if it has an id and a date, the date
      of the records with its id, and, if it is the first with its id, no date
      later than the first records before it. */
  predicate Continues(records: seq<Record>, record: Record) {
    var firsts := Firsts(records);
    && record.id > 0 && record.date != 0
    && (forall i | 0 <= i < |records| && records[i].id == record.id :: records[i].date == record.date)
    && (Seen(records, record.id) || firsts == [] || record.date <= firsts[|firsts| - 1].date)
  }

  lemma InOrderMore(records: seq<Record>, record: Record)
    requires InOrder(records)
    ensures InOrder(records + [record]) <==> Continues(records, record)
  {
    var more := records + [record];
    assert more[|records|] == record && more[..|records|] == records;
    assert forall i | 0 <= i < |records| :: more[i] == records[i];
    assert Firsts(more) == Firsts(records) + if Seen(records, record.id) then [] else [record];
    NeverLaterMore(Firsts(records), record);
    SameDatesMore(records, record);
    hide Firsts, Seen, NeverLater, SameDates;
  }

  lemma SameDatesMore(records: seq<Record>, record: Record)
    requires SameDates(records)
    ensures SameDates(records + [record]) <==> forall i | 0 <= i < |records| && records[i].id == record.id :: records[i].date == record.date
  {
    var more := records + [record];
    assert more[|records|] == record;
    assert forall i | 0 <= i < |records| :: more[i] == records[i];
    if SameDates(more) {
      forall i | 0 <= i < |records| && records[i].id == record.id ensures records[i].date == record.date {
        assert more[i].id == more[|records|].id;
      }
    }
  }

  lemma NeverLaterMore(firsts: seq<Record>, record: Record)
    requires NeverLater(firsts)
    ensures NeverLater(firsts + [record]) <==> firsts == [] || record.date <= firsts[|firsts| - 1].date
  {
    var more := firsts + [record];
    if firsts != [] {
      assert more[|firsts| - 1] == firsts[|firsts| - 1] && more[|firsts|] == record;
    }
  }

  lemma {:induction false} FirstsAreRecords(records: seq<Record>)
    ensures forall x | x in Firsts(records) :: x in records
  {
    if records != [] {
      FirstsAreRecords(records[..|records| - 1]);
    }
  }

  lemma ScanAccepts(s: Scan, records: seq<Record>, record: Record, window: Window)
    requires Follows(s, records, window) && forall x | x in Firsts(records) :: x.date != 0
    ensures ScanRecord(s, record, window).Ok? <==> Continues(records, record)
  {
    if record.id in s.seen {
      var i :| 0 <= i < |records| && records[i].id == record.id;
    }
    hide Firsts, Wanted;
  }

  lemma ScanKeeps(s: Scan, records: seq<Record>, record: Record, window: Window)
    requires Follows(s, records, window) && ScanRecord(s, record, window).Ok?
    ensures var t := ScanRecord(s, record, window).value;
            && Follows(t, records + [record], window)
            && (t.progress <==> s.progress || !Seen(records, record.id))
            && (t.reachedLower <==> s.reachedLower || BeforeWindow(records, record, window))
  {
    var more := records + [record];
    assert more[..|records|] == records && more[|records|] == record;
    assert Firsts(more) == Firsts(records) + if Seen(records, record.id) then [] else [record];
    assert record.id in s.seen <==> Seen(records, record.id);
    hide Firsts, Seen, DatesOf;
    DatesMore(s.seen, records, record);
    if record.id in s.seen {
      assert s.seen[record.id := record.date] == s.seen;
      assert Firsts(more) == Firsts(records);
    } else {
      WantedMore(Firsts(records), record, window);
      hide Wanted;
      ScanNew(s, record, window);
    }
  }

  lemma ScanNew(s: Scan, record: Record, window: Window)
    requires record.id !in s.seen && ScanRecord(s, record, window).Ok?
    ensures var t := ScanRecord(s, record, window).value;
            && t.seen == s.seen[record.id := record.date] && t.oldest == record.date && t.progress
            && t.records == s.records + (if InWindow(record, window) then [record] else [])
            && (t.reachedLower <==> s.reachedLower || (window.since != 0 && record.date < window.since - window.since % 1_000_000_000))
  {
    assert InWindow(record, window) <==> window.Wants(record);
  }

  lemma SeenMore(records: seq<Record>, record: Record)
    ensures forall id :: Seen(records + [record], id) <==> Seen(records, id) || id == record.id
  {
    var more := records + [record];
    assert more[|records|] == record;
    forall id | Seen(records, id) ensures Seen(more, id) {
      var i :| 0 <= i < |records| && records[i].id == id;
      assert more[i].id == id;
    }
  }

  lemma WantedMore(records: seq<Record>, record: Record, window: Window)
    ensures Wanted(records + [record], window) == Wanted(records, window) + if InWindow(record, window) then [record] else []
  {
    assert (records + [record])[..|records|] == records;
  }

  lemma ScanFollows(s: Scan, records: seq<Record>, record: Record, window: Window)
    requires Follows(s, records, window) && InOrder(records)
    ensures ScanRecord(s, record, window).Ok? <==> InOrder(records + [record])
    ensures ScanRecord(s, record, window).Ok? ==>
              var t := ScanRecord(s, record, window).value;
              && Follows(t, records + [record], window)
              && (t.progress <==> s.progress || !Seen(records, record.id))
              && (t.reachedLower <==> s.reachedLower || BeforeWindow(records, record, window))
  {
    InOrderMore(records, record);
    FirstsAreRecords(records);
    hide Follows, ScanRecord, Continues, Firsts, Seen, NeverLater;
    ScanAccepts(s, records, record, window);
    if ScanRecord(s, record, window).Ok? {
      ScanKeeps(s, records, record, window);
    }
  }

  lemma {:induction false} PageFollows(s: Scan, earlier: seq<Record>, page: seq<Record>, n: nat, window: Window)
    requires Follows(s, earlier, window) && InOrder(earlier) && n <= |page|
    ensures ScanPage(s, page, n, window).Ok? <==> InOrder(earlier + page[..n])
    ensures ScanPage(s, page, n, window).Ok? ==>
              var t := ScanPage(s, page, n, window).value;
              && Follows(t, earlier + page[..n], window)
              && (t.progress <==> s.progress || exists i | 0 <= i < n :: !Seen(earlier, page[i].id))
              && (t.reachedLower <==> s.reachedLower || exists i | 0 <= i < n :: BeforeWindow(earlier, page[i], window))
  {
    hide Follows, ScanRecord;
    if n == 0 {
      assert earlier + page[..0] == earlier;
    } else {
      PageFollows(s, earlier, page, n - 1, window);
      var before := earlier + page[..n - 1];
      assert earlier + page[..n] == before + [page[n - 1]];
      if InOrder(before + [page[n - 1]]) {
        OrderOfFront(before, page[n - 1]);
      }
      if ScanPage(s, page, n - 1, window).Ok? {
        var t := ScanPage(s, page, n - 1, window).value;
        ScanFollows(t, before, page[n - 1], window);
        hide InOrder;
        if ScanPage(s, page, n, window).Ok? {
          NewOnPage(earlier, page, n, window);
        }
      }
    }
  }

  lemma OrderOfFront(records: seq<Record>, record: Record)
    requires InOrder(records + [record])
    ensures InOrder(records)
  {
    var more := records + [record];
    assert more[..|records|] == records;
    assert forall i | 0 <= i < |records| :: more[i] == records[i];
    var firsts, all := Firsts(records), Firsts(more);
    assert forall i | 0 <= i < |firsts| :: all[i] == firsts[i];
  }

  /** A record is new on a page if some record on it, up to that one, is new. */
  lemma NewOnPage(earlier: seq<Record>, page: seq<Record>, n: nat, window: Window)
    requires 0 < n <= |page|
    ensures var before, record := earlier + page[..n - 1], page[n - 1];
            && ((exists i | 0 <= i < n :: !Seen(earlier, page[i].id)) <==>
                (exists i | 0 <= i < n - 1 :: !Seen(earlier, page[i].id)) || !Seen(before, record.id))
            && (InOrder(before + [record]) ==>
                  ((exists i | 0 <= i < n :: BeforeWindow(earlier, page[i], window)) <==>
                   (exists i | 0 <= i < n - 1 :: BeforeWindow(earlier, page[i], window)) || BeforeWindow(before, record, window)))
  {
    var before, record := earlier + page[..n - 1], page[n - 1];
    assert forall i | 0 <= i < |earlier| :: before[i] == earlier[i];
    assert forall i | 0 <= i < n - 1 :: before[|earlier| + i] == page[i];
    if Seen(earlier, record.id) {
      var i :| 0 <= i < |earlier| && earlier[i].id == record.id;
      assert before[i].id == record.id;
    }
    if Seen(before, record.id) && !Seen(earlier, record.id) {
      var i :| 0 <= i < |before| && before[i].id == record.id;
      assert i >= |earlier| && page[i - |earlier|].id == record.id;
      if InOrder(before + [record]) {
        var more := before + [record];
        assert more[i].id == more[|before|].id;
      }
    }
  }

  lemma Extended(answers: seq<Answer>, k: nat, window: Window)
    requires k < |answers| && answers[k].Answered?
    ensures Received(answers, k + 1) == Received(answers, k) + answers[k].page.records
  {
  }

  /** What the page checks of a reading say. */
  lemma PageChecks(answers: seq<Answer>, k: nat, previousTotal: int)
    requires k < |answers| && answers[k].Answered? && previousTotal >= 0
    requires k > 0 ==> answers[k - 1].Answered?
    requires previousTotal == if k == 0 then 0 else answers[k - 1].page.total
    ensures var page := answers[k].page;
            RightPage(answers, k) <==>
              && WellFormed(page, k + 1, previousTotal) && |page.records| == Expected(page.total, k + 1)
              && (page.records != [] ==> exists i | 0 <= i < |page.records| :: !Seen(Received(answers, k), page.records[i].id))
  {
    hide Seen, Received;
  }

  lemma SameFollows(s: Scan, t: Scan, records: seq<Record>, window: Window)
    requires Follows(s, records, window) && t.seen == s.seen && t.records == s.records && t.oldest == s.oldest
    ensures Follows(t, records, window)
  {
    hide Wanted, Firsts, Seen;
  }

  lemma {:induction false} FrontInOrder(answers: seq<Answer>, m: nat, n: nat)
    requires m <= n <= |answers| && InOrder(Received(answers, n))
    ensures InOrder(Received(answers, m))
    decreases n - m
  {
    hide InOrder;
    if m < n {
      if answers[n - 1].Answered? {
        FrontOfRecords(Received(answers, n - 1), answers[n - 1].page.records);
      } else {
        assert Received(answers, n) == Received(answers, n - 1);
      }
      FrontInOrder(answers, m, n - 1);
    }
  }

  lemma {:induction false} FrontOfRecords(a: seq<Record>, b: seq<Record>)
    requires InOrder(a + b)
    ensures InOrder(a)
    decreases |b|
  {
    hide InOrder;
    if b == [] {
      assert a + b == a;
    } else {
      var last := |b| - 1;
      assert a + b == (a + b[..last]) + [b[last]];
      OrderOfFront(a + b[..last], b[last]);
      FrontOfRecords(a, b[..last]);
    }
  }

  /** n pages answer the question, with records v. */
  ghost predicate Answers(answers: seq<Answer>, n: nat, window: Window, v: seq<Record>)
    requires n <= |answers|
  {
    n > 0 && ReadsOn(answers, n, window) && Covers(answers, n, window) && v == Wanted(Firsts(Received(answers, n)), window)
  }

  lemma NotBeyond(answers: seq<Answer>, k: nat, n: nat, window: Window, v: seq<Record>)
    requires k < n <= |answers| && Answers(answers, n, window, v)
    ensures RightPage(answers, k) && InOrder(Received(answers, k + 1)) && ReadsOn(answers, k + 1, window)
    ensures n == k + 1 <==> Covers(answers, k + 1, window)
  {
    hide InOrder, Received, Covers, RightPage;
    assert RightPage(answers, k);
    FrontInOrder(answers, k + 1, n);
    assert answers[k].Answered? by { AnsweredPage(answers, k); }
  }

  lemma AnsweredPage(answers: seq<Answer>, k: nat)
    requires k < |answers| && RightPage(answers, k)
    ensures answers[k].Answered?
  {
  }

  /** A reading that has got as far as page k succeeds exactly if some number of
      pages answers the question, with what they say. */
  lemma {:induction false} ReadsOnExactly(answers: seq<Answer>, k: nat, s: Scan, received: int, previousTotal: int, window: Window, v: seq<Record>)
    requires k <= |answers| && ReadsOn(answers, k, window) && (k > 0 ==> !Covers(answers, k, window))
    requires Follows(s, Received(answers, k), window) && received == |Received(answers, k)| == 100 * k
    requires k > 0 ==> answers[k - 1].Answered?
    requires previousTotal == (if k == 0 then 0 else answers[k - 1].page.total) && previousTotal >= 0
    ensures ReadFrom(answers, k, s, received, previousTotal, window) == Ok(v) <==> exists n | k < n <= |answers| :: Answers(answers, n, window, v)
    decreases |answers| - k
  {
    hide ScanPage, Follows, InOrder, Wanted, Firsts, Received, Covers, Answers, ReadsOn, RightPage, Seen, WellFormed;
    if exists n | k < n <= |answers| :: Answers(answers, n, window, v) {
      var n :| k < n <= |answers| && Answers(answers, n, window, v);
      NotBeyond(answers, k, n, window, v);
      AnsweredPage(answers, k);
    }
    if k < |answers| && answers[k].Answered? {
      PageReads(answers, k, s, received, previousTotal, window, v);
    }
  }

  lemma {:induction false} PageReads(answers: seq<Answer>, k: nat, s: Scan, received: int, previousTotal: int, window: Window, v: seq<Record>)
    requires k < |answers| && ReadsOn(answers, k, window) && (k > 0 ==> !Covers(answers, k, window))
    requires Follows(s, Received(answers, k), window) && received == |Received(answers, k)| == 100 * k
    requires k > 0 ==> answers[k - 1].Answered?
    requires previousTotal == (if k == 0 then 0 else answers[k - 1].page.total) && previousTotal >= 0
    requires answers[k].Answered?
    ensures ReadFrom(answers, k, s, received, previousTotal, window) == Ok(v) <==> exists n | k < n <= |answers| :: Answers(answers, n, window, v)
    decreases |answers| - k, 0
  {
    hide ScanPage, Follows, InOrder, Wanted, Firsts, Received, Seen, BeforeWindow, WellFormed;
    var page := answers[k].page;
    var earlier := Received(answers, k);
    var clean := s.(progress := false, reachedLower := false);
    Extended(answers, k, window);
    PageChecks(answers, k, previousTotal);
    SameFollows(s, clean, earlier, window);
    InOrderSoFar(answers, k, window);
    PageFollows(clean, earlier, page.records, |page.records|, window);
    assert page.records[..|page.records|] == page.records;
    if exists n | k < n <= |answers| :: Answers(answers, n, window, v) {
      var n :| k < n <= |answers| && Answers(answers, n, window, v);
      NotBeyond(answers, k, n, window, v);
    }
    if RightPage(answers, k) && InOrder(Received(answers, k + 1)) {
      PageSize(answers, k);
      OneMorePage(answers, k, window);
      if page.records == [] {
        assert earlier + [] == earlier;
        WantedIs(s, earlier, window);
        assert Covers(answers, k + 1, window);
      } else {
        var t := ScanPage(clean, page.records, |page.records|, window).value;
        WantedIs(t, Received(answers, k + 1), window);
        assert t.progress;
        assert t.reachedLower || received + |page.records| >= page.total <==> Covers(answers, k + 1, window);
        if !Covers(answers, k + 1, window) {
          ReadsOnExactly(answers, k + 1, t, received + |page.records|, page.total, window, v);
        }
      }
      hide RightPage, ReadsOn, Covers, ReadFrom;
      if Covers(answers, k + 1, window) {
        assert Answers(answers, k + 1, window, v) <==> v == Wanted(Firsts(Received(answers, k + 1)), window);
      }
    }
  }

  lemma InOrderSoFar(answers: seq<Answer>, k: nat, window: Window)
    requires k <= |answers| && ReadsOn(answers, k, window)
    ensures InOrder(Received(answers, k))
  {
  }

  lemma WantedIs(s: Scan, records: seq<Record>, window: Window)
    requires Follows(s, records, window)
    ensures s.records == Wanted(Firsts(records), window)
  {
  }

  lemma PageSize(answers: seq<Answer>, k: nat)
    requires k < |answers| && RightPage(answers, k)
    ensures var page := answers[k].page;
            && (|page.records| == 100 || 100 * k + |page.records| >= page.total) && (page.records == [] ==> 100 * k >= page.total) && page.total >= 0
  {
    hide Seen, Received;
  }

  lemma OneMorePage(answers: seq<Answer>, k: nat, window: Window)
    requires k < |answers| && ReadsOn(answers, k, window) && (k > 0 ==> !Covers(answers, k, window))
    requires RightPage(answers, k) && InOrder(Received(answers, k + 1))
    ensures ReadsOn(answers, k + 1, window)
  {
    hide RightPage, InOrder, Received, Covers;
  }

  /** A reading succeeds exactly if some number of pages are all as asked for,
      each with something new unless it is empty, their records in order and
      with one date for each id, and the last, but none before, covers the
      window. It returns the relevant records of the window, each once, in the
      order of their first appearance. */
  lemma ReadsExactly(answers: seq<Answer>, window: Window, v: seq<Record>)
    ensures Read(answers, window) == Ok(v) <==> exists n | 0 < n <= |answers| :: Answers(answers, n, window, v)
  {
    hide ReadFrom, Answers;
    ReadsOnExactly(answers, 0, START, 0, 0, window, v);
  }
}
