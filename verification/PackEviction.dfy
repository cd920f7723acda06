/** The pack cache: rows in the database, one content-addressed directory per
    row under the cache root, and the eviction that keeps a byte budget and
    brings the two back into agreement (internal/pack/cache.go). */
module PackEviction {
  import Sorting
  import opened Text

  /** A pack's directory is named by the hash of its identity and evidence
      version; hashing is taken as injective, so the name is the pair. */
  datatype Name = Content(identity: string, evidence: string) | Tombstone(id: int) | Other(name: string)

  /** A row; its directory is None when the stored path does not fit the
      content-addressed layout. */
  datatype Pack = Pack(id: int, identity: string, directory: Option<Name>, size: nat, expiresAt: int, lastAccess: int) {
    predicate Expired(now: int) { expiresAt <= now }
  }

  // ---- the eviction order ------------------------------------------------

  predicate NotAfter(a: Pack, b: Pack, now: int) {
    if a.Expired(now) != b.Expired(now) then a.Expired(now)
    else a.lastAccess < b.lastAccess || (a.lastAccess == b.lastAccess && a.id <= b.id)
  }

  /** Expired packs first, then the least recently used. */
  function Listed(rows: seq<Pack>, now: int): seq<Pack> {
    Sorting.StableSort(rows, (a: Pack, b: Pack) => NotAfter(a, b, now))
  }

  function Bytes(packs: seq<Pack>): nat {
    if packs == [] then 0 else packs[0].size + Bytes(packs[1..])
  }

  function Without(rows: seq<Pack>, id: int): seq<Pack> {
    if rows == [] then [] else (if rows[0].id == id then [] else [rows[0]]) + Without(rows[1..], id)
  }

  function WithoutAll(rows: seq<Pack>, gone: seq<Pack>): seq<Pack> {
    if gone == [] then rows else Without(WithoutAll(rows, gone[..|gone| - 1]), gone[|gone| - 1].id)
  }

  ghost predicate DistinctIds(rows: seq<Pack>) {
    forall i, j | 0 <= i < j < |rows| :: rows[i].id != rows[j].id
  }

  ghost predicate DistinctIdentities(rows: seq<Pack>) {
    forall i, j | 0 <= i < j < |rows| :: rows[i].identity != rows[j].identity
  }

  lemma ListedFacts(rows: seq<Pack>, now: int)
    ensures var order := Listed(rows, now);
            && |order| == |rows| && multiset(order) == multiset(rows)
            && (forall p :: p in order <==> p in rows)
            && (forall i, j | 0 <= i < j < |order| :: NotAfter(order[i], order[j], now))
  {
    var le := (a: Pack, b: Pack) => NotAfter(a, b, now);
    Sorting.SortIsSorted(rows, le);
    Sorting.SortKeepsElements(rows, le);
    var order := Listed(rows, now);
    forall i, j | 0 <= i < j < |order| ensures NotAfter(order[i], order[j], now) {
      assert le(order[i], order[j]);
    }
  }

  lemma {:induction false} WithoutFacts(rows: seq<Pack>, id: int)
    ensures forall p :: p in Without(rows, id) <==> p in rows && p.id != id
    ensures DistinctIds(rows) ==> DistinctIds(Without(rows, id))
  {
    if rows != [] {
      WithoutFacts(rows[1..], id);
      assert rows == [rows[0]] + rows[1..];
      var rest := Without(rows[1..], id);
      if DistinctIds(rows) {
        assert forall i | 0 <= i < |rest| :: rest[i] in rows[1..];
        assert forall p | p in rows[1..] :: p.id != rows[0].id;
      }
    }
  }

  lemma {:induction false} WithoutAllFacts(rows: seq<Pack>, gone: seq<Pack>)
    ensures forall p :: p in WithoutAll(rows, gone) <==> p in rows && forall g | g in gone :: g.id != p.id
    ensures DistinctIds(rows) ==> DistinctIds(WithoutAll(rows, gone))
  {
    if gone != [] {
      var n := |gone| - 1;
      WithoutAllFacts(rows, gone[..n]);
      WithoutFacts(WithoutAll(rows, gone[..n]), gone[n].id);
      assert gone == gone[..n] + [gone[n]];
    }
  }

  // ---- what eviction leaves ----------------------------------------------

  /** The first k of the order may go: every unexpired one among them exceeds
      the budget together with all that come after it. */
  predicate MayGo(order: seq<Pack>, k: nat, now: int, maxBytes: int) {
    k <= |order| && forall i: nat | i < k :: Evictable(order, i, now, maxBytes)
  }

  predicate Evictable(order: seq<Pack>, i: nat, now: int, maxBytes: int) {
    i < |order| && (order[i].Expired(now) || Bytes(order[i..]) > maxBytes)
  }

  /** Nothing more has to go. */
  predicate Fits(order: seq<Pack>, k: nat, now: int, maxBytes: int) {
    k <= |order| && (forall i | k <= i < |order| :: !order[i].Expired(now)) && (k < |order| ==> Bytes(order[k..]) <= maxBytes)
  }

  lemma {:induction false} BytesSuffix(packs: seq<Pack>, i: nat, j: nat)
    requires i <= j <= |packs|
    ensures Bytes(packs[j..]) <= Bytes(packs[i..])
    decreases j - i
  {
    if i < j {
      assert packs[i..][1..] == packs[i + 1..];
      BytesSuffix(packs, i + 1, j);
    }
  }

  /** Going and fitting leave only one number of packs to evict. */
  lemma HowManyGo(order: seq<Pack>, k: nat, other: nat, now: int, maxBytes: int)
    requires MayGo(order, k, now, maxBytes) && Fits(order, k, now, maxBytes)
    requires MayGo(order, other, now, maxBytes) && Fits(order, other, now, maxBytes)
    ensures k == other
  {
    assert !Evictable(order, k, now, maxBytes) && !Evictable(order, other, now, maxBytes);
  }

  /** The directories that may stay: those of a surviving row, unless an
      evicted row had the same. */
  ghost predicate StaysOnDisk(name: Name, disk: set<Name>, rows: seq<Pack>, evicted: seq<Pack>) {
    name in disk && (exists p :: p in rows && p.directory == Some(name)) && forall g | g in evicted :: g.directory != Some(name)
  }

  /** Eviction of a pack stops at a path outside the layout, and at a directory
      whose new name is taken. */
  predicate Removable(entry: Pack, disk: set<Name>) {
    entry.directory.Some? && (entry.directory.value in disk ==> Tombstone(entry.id) !in disk)
  }

  /** Each of the first k could be removed when its turn came. */
  ghost predicate AllRemovable(entries: seq<Pack>, k: nat, disk: set<Name>) {
    k <= |entries| && forall i | 0 <= i < k :: Removable(entries[i], disk - DirectoriesOf(entries[..i]))
  }

  lemma OneMoreRemovable(entries: seq<Pack>, k: nat, disk: set<Name>)
    requires AllRemovable(entries, k, disk) && k < |entries| && Removable(entries[k], disk - DirectoriesOf(entries[..k]))
    ensures AllRemovable(entries, k + 1, disk)
  {
  }

  /** The next pack has to go and cannot. */
  ghost predicate Stuck(order: seq<Pack>, k: nat, disk: set<Name>, now: int, maxBytes: int) {
    k < |order| && Evictable(order, k, now, maxBytes) && !Removable(order[k], disk)
  }

  lemma ExpiredComeFirst(a: Pack, b: Pack, now: int)
    requires NotAfter(a, b, now) && !a.Expired(now)
    ensures !b.Expired(now)
  {
  }

  lemma NoneGone(order: seq<Pack>, now: int, maxBytes: int)
    ensures MayGo(order, 0, now, maxBytes)
  {
  }

  lemma OneMoreMayGo(order: seq<Pack>, k: nat, now: int, maxBytes: int)
    requires MayGo(order, k, now, maxBytes) && Evictable(order, k, now, maxBytes)
    ensures MayGo(order, k + 1, now, maxBytes)
  {
  }

  lemma WithoutNone(rows: seq<Pack>)
    ensures WithoutAll(rows, []) == rows && DirectoriesOf([]) == {}
  {
  }

  lemma WithoutOneMore(rows: seq<Pack>, gone: seq<Pack>, p: Pack)
    ensures WithoutAll(rows, gone + [p]) == Without(WithoutAll(rows, gone), p.id)
  {
    assert (gone + [p])[..|gone|] == gone;
  }

  lemma OneMoreGone(entries: seq<Pack>, i: nat)
    requires i < |entries|
    ensures entries[..i] + [entries[i]] == entries[..i + 1]
    ensures Bytes(entries[i + 1..]) == Bytes(entries[i..]) - entries[i].size
    ensures (entries[..i] + [entries[i]])[..i] == entries[..i]
    ensures DirectoriesOf(entries[..i] + [entries[i]]) == DirectoriesOf(entries[..i]) + DirectoriesOf([entries[i]])
  {
    assert entries[i..][1..] == entries[i + 1..];
  }

  class PackCache {
    const maxBytes: int
    var rows: seq<Pack>
    var disk: set<Name>

    constructor (maxBytes: int)
      ensures rows == [] && disk == {} && this.maxBytes == maxBytes
    {
      this.maxBytes, rows, disk := maxBytes, [], {};
    }

    /** Evicts, and then removes whatever no row accounts for. It stops with an
        error at a path outside the layout, or when the name it would rename a
        directory to is taken. */
    method EvictLocked(now: int) returns (ok: bool, ghost evicted: seq<Pack>)
      requires DistinctIds(rows)
      modifies this
      ensures evicted <= Listed(old(rows), now) && rows == WithoutAll(old(rows), evicted)
      ensures MayGo(Listed(old(rows), now), |evicted|, now, maxBytes)
      ensures ok ==> Fits(Listed(old(rows), now), |evicted|, now, maxBytes)
      ensures ok ==> forall name :: name in disk <==> StaysOnDisk(name, old(disk), rows, evicted)
      ensures ok ==> forall p :: p in rows <==> p in old(rows) && p.expiresAt > now && RecentBytes(old(rows), p, now) <= maxBytes
      ensures AllRemovable(Listed(old(rows), now), |evicted|, old(disk))
      ensures ok ==> forall p | p in rows :: p.directory.Some?
      ensures !ok ==> disk == old(disk) - DirectoriesOf(evicted)
      ensures !ok ==> Stuck(Listed(old(rows), now), |evicted|, disk, now, maxBytes) ||
                      (Fits(Listed(old(rows), now), |evicted|, now, maxBytes) && exists p :: p in rows && p.directory.None?)
    {
      ListedFacts(rows, now);
      hide Listed, NotAfter, MayGo, Fits, WithoutAll, AllRemovable, Removable, Evictable, RecentBytes;
      ok, evicted := EvictListed(Listed(rows, now), now);
      if ok {
        assert evicted == Listed(old(rows), now)[..|evicted|];
        SurvivorsExactly(old(rows), |evicted|, now, maxBytes);
        ok := SweepOrphans(now);
      }
    }

    method EvictListed(entries: seq<Pack>, now: int) returns (ok: bool, ghost evicted: seq<Pack>)
      requires forall i, j | 0 <= i < j < |entries| :: NotAfter(entries[i], entries[j], now)
      modifies this
      ensures evicted <= entries && rows == WithoutAll(old(rows), evicted)
      ensures MayGo(entries, |evicted|, now, maxBytes)
      ensures if ok then Fits(entries, |evicted|, now, maxBytes) else Stuck(entries, |evicted|, disk, now, maxBytes)
      ensures disk == old(disk) - DirectoriesOf(evicted)
      ensures AllRemovable(entries, |evicted|, old(disk))
    {
      ok := false;
      var total := TotalSize(entries);
      evicted := [];
      assert entries[0..] == entries;
      hide Bytes, NotAfter, DirectoriesOf, WithoutAll, Without, MayGo;
      WithoutNone(rows);
      NoneGone(entries, now, maxBytes);
      assert AllRemovable(entries, 0, disk);
      hide AllRemovable, Removable;
      for i := 0 to |entries|
        invariant |evicted| <= i && evicted == entries[..|evicted|] && total == Bytes(entries[|evicted|..])
        invariant rows == WithoutAll(old(rows), evicted)
        invariant MayGo(entries, |evicted|, now, maxBytes)
        invariant |evicted| < i ==> total <= maxBytes
        invariant forall j | |evicted| <= j < i :: !entries[j].Expired(now)
        invariant disk == old(disk) - DirectoriesOf(evicted)
        invariant AllRemovable(entries, |evicted|, old(disk))
      {
        var entry := entries[i];
        if |evicted| < i {
          ExpiredComeFirst(entries[|evicted|], entry, now);
        }
        if !entry.Expired(now) && total <= maxBytes {
          continue;
        }
        assert |evicted| == i;
        var removed := EvictOne(entry);
        if !removed {
          return;
        }
        total := total - entry.size;
        OneMoreGone(entries, i);
        OneMoreRemovable(entries, i, old(disk));
        WithoutOneMore(old(rows), evicted, entry);
        OneMoreMayGo(entries, i, now, maxBytes);
        evicted := evicted + [entry];
      }
      ok := true;
    }

    /** The directory is renamed out of the way, the row deleted, and then the
        renamed directory. */
    method EvictOne(entry: Pack) returns (ok: bool)
      modifies this
      ensures ok <==> Removable(entry, old(disk))
      ensures rows == if ok then Without(old(rows), entry.id) else old(rows)
      ensures disk == if ok then old(disk) - DirectoriesOf([entry]) else old(disk)
    {
      if entry.directory.None? {
        return false;
      }
      var directory, tombstone := entry.directory.value, Tombstone(entry.id);
      if directory in disk && tombstone in disk {
        return false;
      }
      var renamed := directory in disk;
      if renamed {
        disk := disk - {directory} + {tombstone};
      }
      rows := Without(rows, entry.id);
      if renamed {
        disk := disk - {tombstone};
      }
      ok := true;
    }

    method TotalSize(entries: seq<Pack>) returns (total: nat)
      ensures total == Bytes(entries)
    {
      total := 0;
      for i := 0 to |entries|
        invariant total + Bytes(entries[i..]) == Bytes(entries)
      {
        assert entries[i..][1..] == entries[i + 1..];
        total := total + entries[i].size;
      }
      assert entries[|entries|..] == [];
    }

    method SweepOrphans(now: int) returns (ok: bool)
      modifies this`disk
      ensures ok <==> forall p | p in rows :: p.directory.Some?
      ensures ok ==> disk == old(disk) * DirectoriesOf(rows)
      ensures !ok ==> disk == old(disk)
    {
      ok := false;
      var remaining := Listed(rows, now);
      ListedFacts(rows, now);
      var known: set<Name> := {};
      for i := 0 to |remaining|
        invariant known == DirectoriesOf(remaining[..i])
        invariant forall j | 0 <= j < i :: remaining[j].directory.Some?
      {
        assert remaining[..i + 1] == remaining[..i] + [remaining[i]];
        if remaining[i].directory.None? {
          return;
        }
        known := known + {remaining[i].directory.value};
      }
      assert remaining[..|remaining|] == remaining;
      SameDirectories(remaining, rows);
      var children := disk;
      while children != {}
        invariant children <= disk <= old(disk)
        invariant forall name | name in old(disk) :: name in disk <==> name in children || name in known
        decreases |children|
      {
        ghost var some := Sorting.SomeMember(children);
        var child :| child in children;
        children := children - {child};
        if child !in known {
          disk := disk - {child};
        }
      }
      ok := true;
    }

    /** A broken pack: its row goes first, then its directory. */
    method InvalidateEntry(entry: Pack) returns (ok: bool)
      modifies this
      ensures ok <==> entry.directory.Some?
      ensures rows == if ok then Without(old(rows), entry.id) else old(rows)
      ensures disk == if ok then old(disk) - {entry.directory.value} else old(disk)
    {
      if entry.directory.None? {
        return false;
      }
      rows := Without(rows, entry.id);
      disk := disk - {entry.directory.value};
      ok := true;
    }

    /** The publishing part of Put: the directory is put in place unless it is
        already there, then the row of its identity is inserted or replaced. */
    method Publish(identity: string, evidence: string, freshId: int, size: nat, expiresAt: int, now: int)
      requires forall p | p in rows :: p.id != freshId
      modifies this
      ensures rows == Upserted(old(rows), Pack(freshId, identity, Some(Content(identity, evidence)), size, expiresAt, now))
      ensures disk == old(disk) + {Content(identity, evidence)}
      ensures (forall p | p in old(rows) :: p.identity != identity) ==>
                rows == old(rows) + [Pack(freshId, identity, Some(Content(identity, evidence)), size, expiresAt, now)]
      ensures forall i | 0 <= i < |old(rows)| && old(rows)[i].identity == identity && (forall j | 0 <= j < i :: old(rows)[j].identity != identity) ::
                rows == old(rows)[i := Pack(old(rows)[i].id, identity, Some(Content(identity, evidence)), size, expiresAt, now)]
    {
      var directory := Content(identity, evidence);
      if directory !in disk {
        disk := disk + {directory};
      }
      var entry := Pack(freshId, identity, Some(directory), size, expiresAt, now);
      for i := 0 to |rows|
        invariant rows == old(rows) && forall j | 0 <= j < i :: rows[j].identity != identity
      {
        if rows[i].identity == identity {
          UpsertAt(rows, i, entry);
          rows := rows[i := entry.(id := rows[i].id)];
          return;
        }
      }
      UpsertAppends(rows, entry);
      rows := rows + [entry];
    }
  }

  function DirectoriesOf(packs: seq<Pack>): set<Name> {
    set p | p in packs && p.directory.Some? :: p.directory.value
  }

  lemma SameDirectories(a: seq<Pack>, b: seq<Pack>)
    requires forall p :: p in a <==> p in b
    ensures DirectoriesOf(a) == DirectoriesOf(b)
  {
  }

  /** A row of the same identity keeps its id and place. */
  function Upserted(rows: seq<Pack>, entry: Pack): seq<Pack> {
    if rows == [] then [entry]
    else if rows[0].identity == entry.identity then [entry.(id := rows[0].id)] + rows[1..]
    else [rows[0]] + Upserted(rows[1..], entry)
  }

  lemma {:induction false} UpsertAt(rows: seq<Pack>, i: nat, entry: Pack)
    requires i < |rows| && rows[i].identity == entry.identity && forall j | 0 <= j < i :: rows[j].identity != entry.identity
    ensures Upserted(rows, entry) == rows[i := entry.(id := rows[i].id)]
  {
    if i > 0 {
      UpsertAt(rows[1..], i - 1, entry);
    }
  }

  lemma {:induction false} UpsertAppends(rows: seq<Pack>, entry: Pack)
    requires forall j | 0 <= j < |rows| :: rows[j].identity != entry.identity
    ensures Upserted(rows, entry) == rows + [entry]
  {
    if rows != [] {
      UpsertAppends(rows[1..], entry);
    }
  }

  // ---- what it comes to --------------------------------------------------

  lemma {:induction false} BytesAppend(a: seq<Pack>, b: seq<Pack>)
    ensures Bytes(a + b) == Bytes(a) + Bytes(b)
  {
    if a == [] {
      assert a + b == b;
    } else {
      assert (a + b)[1..] == a[1..] + b;
      BytesAppend(a[1..], b);
    }
  }

  lemma {:induction false} BytesOfPermutation(a: seq<Pack>, b: seq<Pack>)
    requires multiset(a) == multiset(b)
    ensures Bytes(a) == Bytes(b)
  {
    assert |a| == |multiset(a)| == |b|;
    if a != [] {
      assert a[0] in multiset(b);
      var i :| 0 <= i < |b| && b[i] == a[0];
      Sorting.TakeOut(a, b, i);
      BytesOfPermutation(a[1..], b[..i] + b[i + 1..]);
      BytesAppend(b[..i], b[i + 1..]);
      BytesAppend(b[..i], [b[i]] + b[i + 1..]);
      assert b == b[..i] + ([b[i]] + b[i + 1..]);
    }
  }

  lemma {:induction false} WithoutTakesOne(rows: seq<Pack>, p: Pack)
    requires DistinctIds(rows) && p in rows
    ensures multiset(Without(rows, p.id)) == multiset(rows) - multiset{p}
  {
    assert rows == [rows[0]] + rows[1..];
    if rows[0] == p {
      forall q | q in rows[1..] ensures q.id != p.id {}
      WithoutNothing(rows[1..], p.id);
    } else {
      assert rows[0].id != p.id;
      WithoutTakesOne(rows[1..], p);
      assert p in rows[1..];
      assert multiset(rows) == multiset{rows[0]} + multiset(rows[1..]);
    }
  }

  lemma {:induction false} WithoutNothing(rows: seq<Pack>, id: int)
    requires forall q | q in rows :: q.id != id
    ensures Without(rows, id) == rows
  {
    if rows != [] {
      assert rows == [rows[0]] + rows[1..];
      WithoutNothing(rows[1..], id);
    }
  }

  /** The rows that stay are those of the rest of the order. */
  lemma {:induction false} SurvivorsAreTheRest(rows: seq<Pack>, order: seq<Pack>, k: nat)
    requires DistinctIds(rows) && multiset(order) == multiset(rows) && k <= |order|
    ensures multiset(WithoutAll(rows, order[..k])) == multiset(order[k..])
    ensures DistinctIds(WithoutAll(rows, order[..k]))
  {
    assert DistinctIds(WithoutAll(rows, order[..k])) by { WithoutAllFacts(rows, order[..k]); }
    hide DistinctIds;
    if k == 0 {
      assert order[..0] == [] && order[0..] == order;
    } else {
      SurvivorsAreTheRest(rows, order, k - 1);
      assert order[..k] == order[..k - 1] + [order[k - 1]];
      WithoutOneMore(rows, order[..k - 1], order[k - 1]);
      RestWithoutNext(WithoutAll(rows, order[..k - 1]), order, k - 1);
    }
  }

  lemma RestWithoutNext(rest: seq<Pack>, order: seq<Pack>, k: nat)
    requires DistinctIds(rest) && k < |order| && multiset(rest) == multiset(order[k..])
    ensures multiset(Without(rest, order[k].id)) == multiset(order[k + 1..])
  {
    hide Without, DistinctIds;
    assert order[k..] == [order[k]] + order[k + 1..];
    assert order[k] in multiset(rest);
    WithoutTakesOne(rest, order[k]);
  }

  /** After a successful eviction every pack left is unexpired and together
      they fit the budget; a budget below zero leaves nothing. */
  lemma SurvivorsFit(rows: seq<Pack>, k: nat, now: int, maxBytes: int)
    requires DistinctIds(rows) && Fits(Listed(rows, now), k, now, maxBytes)
    ensures var left := WithoutAll(rows, Listed(rows, now)[..k]);
            && (forall p | p in left :: !p.Expired(now))
            && (left == [] || Bytes(left) <= maxBytes)
  {
    var order := Listed(rows, now);
    ListedFacts(rows, now);
    SurvivorsAreTheRest(rows, order, k);
    var left := WithoutAll(rows, order[..k]);
    BytesOfPermutation(left, order[k..]);
    assert |left| == |multiset(left)| == |order[k..]|;
    forall p | p in left ensures !p.Expired(now) {
      assert p in multiset(order[k..]);
    }
  }

  /** q is unexpired and was not used before p; of two used at the same time
      the larger id counts as the later. */
  predicate AsRecent(q: Pack, p: Pack, now: int) {
    q.expiresAt > now && (p.lastAccess < q.lastAccess || (p.lastAccess == q.lastAccess && p.id <= q.id))
  }

  /** The bytes of the packs as recent as p. */
  function RecentBytes(rows: seq<Pack>, p: Pack, now: int): nat {
    if rows == [] then 0 else (if AsRecent(rows[0], p, now) then rows[0].size else 0) + RecentBytes(rows[1..], p, now)
  }

  lemma {:induction false} RecentAppend(a: seq<Pack>, b: seq<Pack>, p: Pack, now: int)
    ensures RecentBytes(a + b, p, now) == RecentBytes(a, p, now) + RecentBytes(b, p, now)
  {
    hide AsRecent;
    if a == [] {
      assert a + b == b;
    } else {
      assert (a + b)[1..] == a[1..] + b;
      RecentAppend(a[1..], b, p, now);
    }
  }

  lemma {:induction false} RecentOfPermutation(a: seq<Pack>, b: seq<Pack>, p: Pack, now: int)
    requires multiset(a) == multiset(b)
    ensures RecentBytes(a, p, now) == RecentBytes(b, p, now)
  {
    hide AsRecent;
    assert |a| == |multiset(a)| == |b|;
    if a != [] {
      assert a[0] in multiset(b);
      var i :| 0 <= i < |b| && b[i] == a[0];
      Sorting.TakeOut(a, b, i);
      RecentOfPermutation(a[1..], b[..i] + b[i + 1..], p, now);
      RecentAppend(b[..i], b[i + 1..], p, now);
      RecentAppend(b[..i], [b[i]] + b[i + 1..], p, now);
      assert b == b[..i] + ([b[i]] + b[i + 1..]);
    }
  }

  lemma {:induction false} AllAsRecent(packs: seq<Pack>, p: Pack, now: int)
    requires forall q | q in packs :: AsRecent(q, p, now)
    ensures RecentBytes(packs, p, now) == Bytes(packs)
  {
    if packs != [] {
      AllAsRecent(packs[1..], p, now);
    }
  }

  lemma {:induction false} NoneAsRecent(packs: seq<Pack>, p: Pack, now: int)
    requires forall q | q in packs :: !AsRecent(q, p, now)
    ensures RecentBytes(packs, p, now) == 0
  {
    if packs != [] {
      NoneAsRecent(packs[1..], p, now);
    }
  }

  /** In the eviction order the packs as recent as an unexpired one are those
      from it on. */
  lemma RecentAreTheRest(rows: seq<Pack>, order: seq<Pack>, j: nat, now: int)
    requires DistinctIds(rows) && multiset(order) == multiset(rows) && j < |order| && order[j].expiresAt > now
    requires forall x, y | 0 <= x < y < |order| :: NotAfter(order[x], order[y], now)
    ensures RecentBytes(rows, order[j], now) == Bytes(order[j..])
  {
    var p := order[j];
    RecentOfPermutation(rows, order, p, now);
    assert order == order[..j] + order[j..];
    RecentAppend(order[..j], order[j..], p, now);
    hide AsRecent, NotAfter, DistinctIds, RecentBytes;
    forall i | 0 <= i < j ensures !AsRecent(order[i], p, now) {
      EarlierIsNot(rows, order, i, j, now);
    }
    NoneAsRecent(order[..j], p, now);
    LaterAreRecent(order, j, now);
    AllAsRecent(order[j..], p, now);
  }

  lemma LaterAreRecent(order: seq<Pack>, j: nat, now: int)
    requires j < |order| && order[j].expiresAt > now && forall x | j < x < |order| :: NotAfter(order[j], order[x], now)
    ensures forall q | q in order[j..] :: AsRecent(q, order[j], now)
  {
  }

  lemma EarlierIsNot(rows: seq<Pack>, order: seq<Pack>, i: nat, j: nat, now: int)
    requires DistinctIds(rows) && multiset(order) == multiset(rows) && i < j < |order| && order[j].expiresAt > now
    requires NotAfter(order[i], order[j], now)
    ensures !AsRecent(order[i], order[j], now)
  {
    NeverTwice(rows, order, i, j);
    IdsTell(rows);
  }

  /** After a successful eviction a pack is left exactly if it has not expired
      and the packs as recent as it fit the budget together. */
  lemma SurvivorsExactly(rows: seq<Pack>, k: nat, now: int, maxBytes: int)
    requires DistinctIds(rows) && MayGo(Listed(rows, now), k, now, maxBytes) && Fits(Listed(rows, now), k, now, maxBytes)
    ensures forall p :: p in WithoutAll(rows, Listed(rows, now)[..k]) <==>
                        p in rows && p.expiresAt > now && RecentBytes(rows, p, now) <= maxBytes
  {
    var order := Listed(rows, now);
    ListedFacts(rows, now);
    WithoutAllFacts(rows, order[..k]);
    hide Listed, WithoutAll;
    forall p | p in rows
      ensures (forall g | g in order[..k] :: g.id != p.id) <==> p.expiresAt > now && RecentBytes(rows, p, now) <= maxBytes
    {
      SurvivesExactly(rows, order, k, now, maxBytes, p);
    }
  }

  lemma SurvivesExactly(rows: seq<Pack>, order: seq<Pack>, k: nat, now: int, maxBytes: int, p: Pack)
    requires DistinctIds(rows) && multiset(order) == multiset(rows) && p in order && forall q :: q in order <==> q in rows
    requires forall x, y | 0 <= x < y < |order| :: NotAfter(order[x], order[y], now)
    requires MayGo(order, k, now, maxBytes) && Fits(order, k, now, maxBytes)
    ensures (forall g | g in order[..k] :: g.id != p.id) <==> p.expiresAt > now && RecentBytes(rows, p, now) <= maxBytes
  {
    var j :| 0 <= j < |order| && order[j] == p;
    if p.expiresAt > now {
      RecentAreTheRest(rows, order, j, now);
    }
    if j < k {
      assert order[..k][j] == p;
      assert Evictable(order, j, now, maxBytes);
    } else {
      BytesSuffix(order, k, j);
      forall g | g in order[..k] ensures g.id != p.id {
        var i :| 0 <= i < k && order[i] == g;
        NeverTwice(rows, order, i, j);
        IdsTell(rows);
      }
    }
  }

  /** No pack is evicted for its size before any pack that comes earlier, and
      an unexpired one only when keeping it and all later ones would exceed the
      budget. */
  lemma EvictedInOrder(rows: seq<Pack>, k: nat, now: int, maxBytes: int, p: Pack, q: Pack)
    requires DistinctIds(rows) && MayGo(Listed(rows, now), k, now, maxBytes)
    requires p in rows && q in rows && NotAfter(p, q, now)
    requires q !in WithoutAll(rows, Listed(rows, now)[..k])
    ensures p !in WithoutAll(rows, Listed(rows, now)[..k])
    ensures q.Expired(now) || Bytes(rows) > maxBytes
  {
    var order := Listed(rows, now);
    ListedFacts(rows, now);
    WithoutAllFacts(rows, order[..k]);
    IdsTell(rows);
    var g :| g in order[..k] && g.id == q.id;
    assert g in rows && g == q;
    var j :| 0 <= j < k && order[j] == q;
    assert Evictable(order, j, now, maxBytes);
    BytesSuffix(order, 0, j);
    assert order[0..] == order;
    BytesOfPermutation(order, rows);
    var i :| 0 <= i < |order| && order[i] == p;
    assert j < i ==> NotAfter(order[j], order[i], now);
    assert j < i ==> p == q;
    assert i < k ==> order[i] in order[..k];
  }

  lemma IdsTell(rows: seq<Pack>)
    requires DistinctIds(rows)
    ensures forall p, q | p in rows && q in rows && p.id == q.id :: p == q
  {
  }

  /** A pack just stored, strictly more recently than every other was used,
      survives its own eviction unless it has expired or alone exceeds the
      budget. */
  lemma NewestSurvives(rows: seq<Pack>, k: nat, now: int, maxBytes: int, p: Pack)
    requires DistinctIds(rows) && MayGo(Listed(rows, now), k, now, maxBytes)
    requires p in rows && !p.Expired(now) && p.size <= maxBytes
    requires forall q | q in rows && q != p :: q.lastAccess < p.lastAccess
    ensures p in WithoutAll(rows, Listed(rows, now)[..k])
  {
    var order := Listed(rows, now);
    ListedFacts(rows, now);
    WithoutAllFacts(rows, order[..k]);
    IdsTell(rows);
    var j :| 0 <= j < |order| && order[j] == p;
    LastOfTheOrder(rows, order, now, j);
    assert order[j..] == [p];
    assert Bytes([p]) == p.size;
    assert !Evictable(order, j, now, maxBytes);
    forall g | g in order[..k] ensures g.id != p.id {
      assert g in rows;
      var i :| 0 <= i < k && order[i] == g;
      NeverTwice(rows, order, i, j);
    }
  }

  /** A permutation of rows with distinct ids never repeats one. */
  lemma NeverTwice(rows: seq<Pack>, order: seq<Pack>, i: nat, j: nat)
    requires DistinctIds(rows) && multiset(order) == multiset(rows) && i < j < |order|
    ensures order[i] in rows && order[j] in rows && order[i] != order[j]
  {
    assert order[i] in multiset(rows) && order[j] in multiset(rows);
    OnlyOnce(rows, order[i]);
    assert order == order[..i] + [order[i]] + order[i + 1..j] + [order[j]] + order[j + 1..];
  }

  lemma LastOfTheOrder(rows: seq<Pack>, order: seq<Pack>, now: int, j: nat)
    requires DistinctIds(rows) && multiset(order) == multiset(rows) && j < |order| && !order[j].Expired(now)
    requires forall x, y | 0 <= x < y < |order| :: NotAfter(order[x], order[y], now)
    requires forall q | q in rows && q != order[j] :: q.lastAccess < order[j].lastAccess
    ensures j == |order| - 1
  {
    assert j < |order| - 1 ==> NotAfter(order[j], order[j + 1], now);
    if j < |order| - 1 {
      NeverTwice(rows, order, j, j + 1);
    }
  }

  lemma {:induction false} OnlyOnce(rows: seq<Pack>, p: Pack)
    requires DistinctIds(rows)
    ensures multiset(rows)[p] <= 1
  {
    if rows != [] {
      assert rows == [rows[0]] + rows[1..];
      OnlyOnce(rows[1..], p);
      assert rows[0] == p ==> p !in rows[1..];
    }
  }

  // ---- rows and directories agree ----------------------------------------

  /** What the database sees to: no identity and no id has two rows, and each
      row names the directory of its identity. */
  ghost predicate Stored(rows: seq<Pack>) {
    && DistinctIds(rows)
    && DistinctIdentities(rows)
    && (forall p | p in rows :: OwnDirectory(p))
  }

  ghost predicate OnDisk(rows: seq<Pack>, disk: set<Name>) {
    forall p | p in rows :: OwnDirectory(p) && p.directory.value in disk
  }

  ghost predicate NothingElse(rows: seq<Pack>, disk: set<Name>) {
    forall name | name in disk :: exists p :: p in rows && p.directory == Some(name)
  }

  /** Each row has its directory on disk, and nothing else is there. */
  ghost predicate Agrees(rows: seq<Pack>, disk: set<Name>) { Stored(rows) && OnDisk(rows, disk) && NothingElse(rows, disk) }

  predicate OwnDirectory(p: Pack) {
    p.directory.Some? && p.directory.value.Content? && p.directory.value.identity == p.identity
  }

  lemma IdentitiesTell(rows: seq<Pack>)
    requires DistinctIdentities(rows)
    ensures forall p, q | p in rows && q in rows && p.identity == q.identity :: p == q
  {
  }

  lemma {:induction false} WithoutKeepsIdentities(rows: seq<Pack>, id: int)
    requires DistinctIdentities(rows)
    ensures DistinctIdentities(Without(rows, id))
  {
    if rows != [] {
      WithoutKeepsIdentities(rows[1..], id);
      WithoutFacts(rows[1..], id);
      var rest := Without(rows[1..], id);
      assert forall i | 0 <= i < |rest| :: rest[i] in rows[1..];
      assert rows == [rows[0]] + rows[1..];
      assert forall p | p in rows[1..] :: p.identity != rows[0].identity;
    }
  }

  lemma {:induction false} WithoutAllKeepsIdentities(rows: seq<Pack>, gone: seq<Pack>)
    requires DistinctIdentities(rows)
    ensures DistinctIdentities(WithoutAll(rows, gone))
  {
    if gone != [] {
      WithoutAllKeepsIdentities(rows, gone[..|gone| - 1]);
      WithoutKeepsIdentities(WithoutAll(rows, gone[..|gone| - 1]), gone[|gone| - 1].id);
    }
  }

  /** A successful eviction brings rows and directories into agreement exactly
      if each row it leaves had its directory, whatever else was on disk. */
  lemma EvictionAgrees(rows: seq<Pack>, disk: set<Name>, evicted: seq<Pack>, after: set<Name>)
    requires Stored(rows) && forall g | g in evicted :: g in rows
    requires forall name :: name in after <==> StaysOnDisk(name, disk, WithoutAll(rows, evicted), evicted)
    ensures Agrees(WithoutAll(rows, evicted), after) <==> OnDisk(WithoutAll(rows, evicted), disk)
  {
    var left := WithoutAll(rows, evicted);
    WithoutAllFacts(rows, evicted);
    WithoutAllKeepsIdentities(rows, evicted);
    IdentitiesTell(rows);
    forall p | p in left && p.directory.value in disk ensures p.directory.value in after {
      forall g | g in evicted ensures g.directory != p.directory {
        assert g.id != p.id;
      }
      assert StaysOnDisk(p.directory.value, disk, left, evicted);
    }
    assert forall name :: StaysOnDisk(name, disk, left, evicted) ==> name in disk;
  }

  /** The disk when a crash stops the eviction of a pack before its row is
      deleted: its directory is renamed away already. */
  function RenamedAway(disk: set<Name>, p: Pack): set<Name>
    requires p.directory.Some?
  {
    disk - {p.directory.value} + {Tombstone(p.id)}
  }

  /** Such a pack, if the next eviction has no reason to evict it, loses its
      directory for good: the sweep takes the renamed one. */
  lemma CrashLosesDirectory(p: Pack, now: int, maxBytes: int, k: nat, after: set<Name>)
    requires OwnDirectory(p) && !p.Expired(now) && p.size <= maxBytes
    requires MayGo(Listed([p], now), k, now, maxBytes)
    requires var evicted := Listed([p], now)[..k];
             forall name :: name in after <==> StaysOnDisk(name, RenamedAway({p.directory.value}, p), WithoutAll([p], evicted), evicted)
    ensures Agrees([p], {p.directory.value}) && RenamedAway({p.directory.value}, p) == {Tombstone(p.id)}
    ensures k == 0 && after == {} && WithoutAll([p], []) == [p] && !Agrees([p], after)
    ensures Agrees(Without([p], p.id), after - {p.directory.value})
  {
    var order := Listed([p], now);
    ListedFacts([p], now);
    assert order[0] in order && order == [p] && p in [p];
    assert order[0..] == [p] && Bytes([p]) == p.size + Bytes([]) by { assert [p][1..] == []; }
    assert !Evictable(order, 0, now, maxBytes);
    assert order[..0] == [];
    var disk := RenamedAway({p.directory.value}, p);
    assert forall name | name in disk :: name == Tombstone(p.id);
    assert forall name :: !StaysOnDisk(name, disk, [p], []);
  }

  /** Publishing a pack puts its directory in place. */
  lemma {:induction false} PublishReady(rows: seq<Pack>, disk: set<Name>, entry: Pack)
    requires Stored(rows) && OwnDirectory(entry) && forall p | p in rows :: p.id != entry.id
    ensures Stored(Upserted(rows, entry))
    ensures OnDisk(rows, disk) ==> OnDisk(Upserted(rows, entry), disk + {entry.directory.value})
  {
    UpsertFacts(rows, entry);
  }

  lemma OthersStay(rows: seq<Pack>, i: nat, entry: Pack)
    requires i < |rows| && rows[i].identity == entry.identity
    ensures forall p | p in rows && p.identity != entry.identity :: p in rows[i := entry]
    ensures forall p | p in rows[i := entry] :: p in rows || p == entry
  {
    var more := rows[i := entry];
    forall p | p in rows && p.identity != entry.identity ensures p in more {
      var j :| 0 <= j < |rows| && rows[j] == p;
      assert more[j] == p;
    }
  }

  lemma {:induction false} UpsertFacts(rows: seq<Pack>, entry: Pack)
    requires DistinctIds(rows) && forall p | p in rows :: p.id != entry.id
    requires DistinctIdentities(rows)
    ensures var more := Upserted(rows, entry);
            && DistinctIds(more)
            && DistinctIdentities(more)
            && (forall p | p in more :: p in rows || p.(id := entry.id) == entry)
            && (forall p | p in rows && p.identity != entry.identity :: p in more)
  {
    if exists i :: 0 <= i < |rows| && rows[i].identity == entry.identity {
      var i :| 0 <= i < |rows| && rows[i].identity == entry.identity;
      UpsertAt(rows, i, entry);
      hide Upserted, OwnDirectory;
      var more := rows[i := entry.(id := rows[i].id)];
      assert Upserted(rows, entry) == more;
      OthersStay(rows, i, more[i]);
    } else {
      UpsertAppends(rows, entry);
    }
  }

  /** Invalidating a pack brings agreement exactly if each other row has its
      directory; so it heals a pack whose own directory is lost. */
  lemma InvalidateAgrees(rows: seq<Pack>, disk: set<Name>, entry: Pack)
    requires Stored(rows) && NothingElse(rows, disk) && entry in rows
    ensures Agrees(Without(rows, entry.id), disk - {entry.directory.value}) <==> OnDisk(Without(rows, entry.id), disk)
  {
    WithoutFacts(rows, entry.id);
    WithoutKeepsIdentities(rows, entry.id);
    IdentitiesTell(rows);
    IdsTell(rows);
    var left, less := Without(rows, entry.id), disk - {entry.directory.value};
    forall name | name in less ensures exists p :: p in left && p.directory == Some(name) {
      var p :| p in rows && p.directory == Some(name);
      assert p in left;
    }
  }

  /** Storing a pack, as Put does it: publish, then evict. Rows and directories
      agree afterwards exactly if each row left has a directory, the pack itself
      stays if it fits and is newest, and the budget holds. */
  method Put(cache: PackCache, identity: string, evidence: string, freshId: int, size: nat, expiresAt: int, now: int) returns (ok: bool)
    requires Stored(cache.rows) && forall p | p in cache.rows :: p.id != freshId
    modifies cache
    ensures ok ==> (Agrees(cache.rows, cache.disk) <==> OnDisk(cache.rows, old(cache.disk) + {Content(identity, evidence)}))
    ensures ok && OnDisk(old(cache.rows), old(cache.disk)) ==> Agrees(cache.rows, cache.disk)
    ensures ok ==> cache.rows == [] || Bytes(cache.rows) <= cache.maxBytes
    ensures ok && expiresAt > now && size <= cache.maxBytes && (forall p | p in old(cache.rows) && p.identity != identity :: p.lastAccess < now) ==>
              exists p :: p in cache.rows && p.identity == identity && p.directory == Some(Content(identity, evidence)) && p.size == size
  {
    hide Listed, MayGo, Fits, WithoutAll, Stuck, AllRemovable, Removable, RecentBytes, DirectoriesOf, Upserted, StaysOnDisk, OnDisk, Agrees;
    var entry := Pack(freshId, identity, Some(Content(identity, evidence)), size, expiresAt, now);
    cache.Publish(identity, evidence, freshId, size, expiresAt, now);
    ghost var evicted;
    UpsertFacts(old(cache.rows), entry);
    ok, evicted := cache.EvictLocked(now);
    if ok {
      AfterPut(old(cache.rows), entry, old(cache.disk), evicted, cache.disk, now, cache.maxBytes);
    }
  }

  lemma AfterPut(before: seq<Pack>, entry: Pack, disk: set<Name>, evicted: seq<Pack>, after: set<Name>, now: int, maxBytes: int)
    requires Stored(before) && OwnDirectory(entry) && forall p | p in before :: p.id != entry.id
    requires evicted <= Listed(Upserted(before, entry), now)
    requires forall name :: name in after <==>
                            StaysOnDisk(name, disk + {entry.directory.value}, WithoutAll(Upserted(before, entry), evicted), evicted)
    requires MayGo(Listed(Upserted(before, entry), now), |evicted|, now, maxBytes) && Fits(Listed(Upserted(before, entry), now), |evicted|, now, maxBytes)
    ensures var left := WithoutAll(Upserted(before, entry), evicted);
            && (Agrees(left, after) <==> OnDisk(left, disk + {entry.directory.value}))
            && (OnDisk(before, disk) ==> Agrees(left, after))
            && (left == [] || Bytes(left) <= maxBytes)
            && (entry.expiresAt > now && entry.size <= maxBytes && (forall p | p in before && p.identity != entry.identity :: p.lastAccess < entry.lastAccess) ==>
                  exists p :: p in left && p == entry.(id := p.id))
  {
    var rows := Upserted(before, entry);
    UpsertFacts(before, entry);
    assert evicted == Listed(rows, now)[..|evicted|];
    PublishReady(before, disk, entry);
    AgreesAfterPut(rows, disk + {entry.directory.value}, evicted, after, now);
    hide Listed, MayGo, Fits, Upserted, WithoutAll, StaysOnDisk, Agrees, OnDisk, DistinctIds, DistinctIdentities, OwnDirectory;
    SurvivorsFit(rows, |evicted|, now, maxBytes);
    if entry.expiresAt > now && entry.size <= maxBytes && (forall p | p in before && p.identity != entry.identity :: p.lastAccess < entry.lastAccess) {
      var p := UpsertedEntry(before, entry);
      OthersAreOlder(before, entry, p);
      NewestSurvives(rows, |evicted|, now, maxBytes, p);
    }
  }

  lemma OthersAreOlder(before: seq<Pack>, entry: Pack, p: Pack)
    requires Stored(before) && (forall q | q in before :: q.id != entry.id)
    requires forall q | q in before && q.identity != entry.identity :: q.lastAccess < entry.lastAccess
    requires p in Upserted(before, entry) && p == entry.(id := p.id)
    ensures forall q | q in Upserted(before, entry) && q != p :: q.lastAccess < p.lastAccess
  {
    UpsertFacts(before, entry);
    hide Upserted, DistinctIds, OwnDirectory;
    IdentitiesTell(Upserted(before, entry));
  }

  lemma AgreesAfterPut(rows: seq<Pack>, disk: set<Name>, evicted: seq<Pack>, after: set<Name>, now: int)
    requires Stored(rows) && evicted <= Listed(rows, now)
    requires forall name :: name in after <==> StaysOnDisk(name, disk, WithoutAll(rows, evicted), evicted)
    ensures Agrees(WithoutAll(rows, evicted), after) <==> OnDisk(WithoutAll(rows, evicted), disk)
    ensures OnDisk(rows, disk) ==> Agrees(WithoutAll(rows, evicted), after)
  {
    ListedFacts(rows, now);
    hide Listed, StaysOnDisk, Stored;
    assert forall g | g in evicted :: g in Listed(rows, now);
    EvictionAgrees(rows, disk, evicted, after);
    WithoutAllFacts(rows, evicted);
  }

  lemma UpsertedEntry(rows: seq<Pack>, entry: Pack) returns (p: Pack)
    ensures p in Upserted(rows, entry) && p == entry.(id := p.id)
  {
    p := entry;
    if exists i :: 0 <= i < |rows| && rows[i].identity == entry.identity {
      p := FirstUpserted(rows, entry);
    } else {
      UpsertAppends(rows, entry);
    }
  }

  lemma {:induction false} FirstUpserted(rows: seq<Pack>, entry: Pack) returns (p: Pack)
    requires exists i :: 0 <= i < |rows| && rows[i].identity == entry.identity
    ensures p in Upserted(rows, entry) && p == entry.(id := p.id)
  {
    p := entry.(id := rows[0].id);
    if rows[0].identity != entry.identity {
      var i :| 0 <= i < |rows| && rows[i].identity == entry.identity;
      assert rows[1..][i - 1].identity == entry.identity;
      p := FirstUpserted(rows[1..], entry);
    }
  }
}
