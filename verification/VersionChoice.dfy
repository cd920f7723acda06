/** Which versions of one episode in a pack are timed: when strict selection
    finds several, at most three, untried ones first
    (internal/pack/alternatives.go). Selection of a pack with one member, the
    affinity of a name to the media release and the record of tried versions
    are parameters. */
module VersionChoice {
  import opened Text
  import Sorting

  datatype Member = Member(name: string, checksum: string)

  /** Strict selection over the whole pack: one member, several by a rule, or
      another error. */
  datatype Selection = Selected(member: Member) | Several(rule: string) | NotSelected

  /** Whether a version was tried before; None when that cannot be read. */
  type Tried = Member -> Option<bool>

  datatype Choice = Refused | Unreadable | Chosen(members: seq<Member>, untriedLeft: bool)

  const MAX_VERSIONS := 3

  predicate Comparable(rule: string) { rule in {"episode_token", "compact_episode", "release_episode_token"} }

  function Checksums(members: seq<Member>): set<string> { set m | m in members :: m.checksum }

  /** The versions: members that the rule identifies on their own, each text
      once. */
  function Versions(members: seq<Member>, rule: string, alone: Member -> Option<string>): seq<Member> {
    if members == [] then []
    else
      var before, m := Versions(members[..|members| - 1], rule, alone), members[|members| - 1];
      if alone(m) == Some(rule) && (m.checksum == "" || m.checksum !in Checksums(before))
      then before + [m] else before
  }

  predicate IsTried(m: Member, tried: Option<Tried>) { tried.Some? && tried.value(m) == Some(true) }

  /** The order of choice: untried before tried, then closest to the release,
      then by name. */
  predicate Ahead(a: Member, b: Member, tried: Option<Tried>, affinity: string -> int) {
    if IsTried(a, tried) != IsTried(b, tried) then IsTried(b, tried)
    else if affinity(a.name) != affinity(b.name) then affinity(a.name) > affinity(b.name)
    else StringLe(a.name, b.name)
  }

  function ByName(): (Member, Member) -> bool { (a: Member, b: Member) => StringLe(a.name, b.name) }
  function ByAffinity(affinity: string -> int): (Member, Member) -> bool {
    (a: Member, b: Member) => affinity(a.name) >= affinity(b.name)
  }

  /** The best versions: as many as fit, nothing left out ahead of one that is
      in, and whether an untried one was left out. */
  ghost predicate BestOf(versions: seq<Member>, choice: Choice, tried: Option<Tried>, affinity: string -> int)
    requires choice.Chosen?
  {
    if |versions| <= MAX_VERSIONS then
      multiset(choice.members) == multiset(versions) && Sorting.SortedBy(choice.members, ByName()) && !choice.untriedLeft
    else exists rest: seq<Member> ::
      && |choice.members| == MAX_VERSIONS && InOrderOfChoice(choice.members, tried, affinity)
      && multiset(choice.members + rest) == multiset(versions)
      && (forall a, b | a in choice.members && b in rest :: Ahead(a, b, tried, affinity))
      && (choice.untriedLeft <==> exists b :: b in rest && !IsTried(b, tried))
  }

  ghost predicate InOrderOfChoice(members: seq<Member>, tried: Option<Tried>, affinity: string -> int) {
    forall i, j | 0 <= i < j < |members| :: Ahead(members[i], members[j], tried, affinity)
  }

  method SelectUntriedAlternatives(members: seq<Member>, whole: Selection, exactHash: bool, alone: Member -> Option<string>,
                                   affinity: string -> int, tried: Option<Tried>) returns (choice: Choice)
    ensures whole.Selected? ==> choice == Chosen([whole.member], false)
    ensures !whole.Selected? ==>
              (choice.Refused? <==>
                 || exactHash || !whole.Several? || whole.rule !in ["episode_token", "compact_episode", "release_episode_token"]
                 || forall m | m in members :: alone(m) != Some(whole.rule))
    ensures choice.Chosen? && !whole.Selected? ==> BestOf(Versions(members, whole.rule, alone), choice, tried, affinity)
    ensures !whole.Selected? && !choice.Refused? ==>
              (choice.Unreadable? <==>
                 var versions := Versions(members, whole.rule, alone);
                 |versions| > 3 && tried.Some? && exists m :: m in versions && tried.value(m) == None)
  {
    if whole.Selected? {
      return Chosen([whole.member], false);
    }
    if exactHash || !whole.Several? || !Comparable(whole.rule) {
      return Refused;
    }
    var versions := CollectVersions(members, whole.rule, alone);
    NoVersions(members, whole.rule, alone);
    if versions == [] {
      return Refused;
    }
    VersionsAreMembers(members, whole.rule, alone);
    var matches := Sorting.StableSort(versions, ByName());
    if |matches| <= MAX_VERSIONS {
      assert |versions| == |multiset(versions)| == |multiset(matches)| == |matches|;
      NamesInOrder(versions);
      return Chosen(matches, false);
    }
    hide BestOf;
    choice := BestVersions(versions, affinity, tried);
  }

  method CollectVersions(members: seq<Member>, rule: string, alone: Member -> Option<string>) returns (matches: seq<Member>)
    ensures matches == Versions(members, rule, alone)
  {
    matches := [];
    var seen: set<string> := {};
    for i := 0 to |members|
      invariant matches == Versions(members[..i], rule, alone) && seen == Checksums(matches)
    {
      var member := members[i];
      assert members[..i + 1][..i] == members[..i];
      if alone(member) != Some(rule) || (member.checksum != "" && member.checksum in seen) {
        continue;
      }
      MoreChecksums(matches, member);
      seen := seen + {member.checksum};
      matches := matches + [member];
    }
    assert members[..|members|] == members;
  }

  /** More versions than are timed: the closest to the release, and the tried
      ones last. */
  method BestVersions(versions: seq<Member>, affinity: string -> int, tried: Option<Tried>) returns (choice: Choice)
    requires |versions| > MAX_VERSIONS
    ensures !choice.Refused?
    ensures choice.Chosen? ==> BestOf(versions, choice, tried, affinity)
    ensures choice.Unreadable? <==> tried.Some? && exists m :: m in versions && tried.value(m) == None
  {
    hide Sorting.StableSort, Closest, InOrderOfChoice, Without, Only, IsTried, BestOf;
    var matches := Sorting.StableSort(versions, ByName());
    var closest := Sorting.StableSort(matches, ByAffinity(affinity));
    ClosestInOrder(versions, affinity);
    Sorting.SortKeepsElements(versions, ByName());
    Sorting.SortKeepsElements(matches, ByAffinity(affinity));
    var readable, untried, rejected := Divide(closest, tried);
    if !readable {
      return Unreadable;
    }
    DivisionInOrder(closest, untried, rejected, tried, affinity);
    var ordered := untried + rejected;
    RestIsBehind(versions, untried, rejected, tried, affinity);
    choice := Chosen(ordered[..MAX_VERSIONS], |untried| > MAX_VERSIONS);
  }

  lemma MoreChecksums(members: seq<Member>, m: Member)
    ensures Checksums(members + [m]) == Checksums(members) + {m.checksum}
  {
    assert forall x :: x in members + [m] <==> x in members || x == m;
  }

  lemma {:induction false} VersionsAreMembers(members: seq<Member>, rule: string, alone: Member -> Option<string>)
    ensures var versions := Versions(members, rule, alone);
            && (forall m | m in versions :: m in members && alone(m) == Some(rule))
            && (forall i, j | 0 <= i < j < |versions| && versions[j].checksum != "" :: versions[i].checksum != versions[j].checksum)
  {
    if members != [] {
      var before := Versions(members[..|members| - 1], rule, alone);
      VersionsAreMembers(members[..|members| - 1], rule, alone);
      assert forall i | 0 <= i < |before| :: before[i].checksum in Checksums(before) by {
        assert forall i | 0 <= i < |before| :: before[i] in before;
      }
    }
  }

  /** Member i is the first of its text that the rule identifies on its own; a
      member without a checksum counts by itself. */
  predicate IsVersion(members: seq<Member>, rule: string, alone: Member -> Option<string>, i: nat) {
    && i < |members| && alone(members[i]) == Some(rule)
    && (members[i].checksum != "" ==> forall j | 0 <= j < i :: alone(members[j]) == Some(rule) ==> members[j].checksum != members[i].checksum)
  }

  lemma {:induction false} ChecksumsSeen(members: seq<Member>, rule: string, alone: Member -> Option<string>, n: nat, sum: string)
    requires n <= |members|
    ensures sum in Checksums(Versions(members[..n], rule, alone)) <==> exists j | 0 <= j < n :: alone(members[j]) == Some(rule) && members[j].checksum == sum
  {
    if n > 0 {
      ChecksumsSeen(members, rule, alone, n - 1, sum);
      assert members[..n][..n - 1] == members[..n - 1];
      MoreChecksums(Versions(members[..n - 1], rule, alone), members[n - 1]);
    }
  }

  lemma NextVersion(members: seq<Member>, rule: string, alone: Member -> Option<string>, n: nat)
    requires n < |members|
    ensures Versions(members[..n + 1], rule, alone) ==
            Versions(members[..n], rule, alone) + if IsVersion(members, rule, alone, n) then [members[n]] else []
  {
    assert members[..n + 1][..n] == members[..n];
    ChecksumsSeen(members, rule, alone, n, members[n].checksum);
  }

  /** The versions are exactly these members, in their order. */
  lemma {:induction false} VersionsExactly(members: seq<Member>, rule: string, alone: Member -> Option<string>, n: nat) returns (at: seq<nat>)
    requires n <= |members|
    ensures (forall i: nat :: i in at <==> i < n && IsVersion(members, rule, alone, i)) && forall a, b | 0 <= a < b < |at| :: at[a] < at[b]
    ensures |at| == |Versions(members[..n], rule, alone)| && forall k | 0 <= k < |at| :: at[k] < n && Versions(members[..n], rule, alone)[k] == members[at[k]]
  {
    hide Versions, IsVersion;
    if n == 0 {
      at := [];
      NothingFound(rule, alone);
      assert members[..0] == [];
    } else {
      at := VersionsExactly(members, rule, alone, n - 1);
      NextVersion(members, rule, alone, n - 1);
      if IsVersion(members, rule, alone, n - 1) {
        at := at + [n - 1];
      }
    }
  }

  lemma NothingFound(rule: string, alone: Member -> Option<string>)
    ensures Versions([], rule, alone) == []
  {
  }

  lemma NoVersions(members: seq<Member>, rule: string, alone: Member -> Option<string>)
    ensures Versions(members, rule, alone) == [] <==> forall m | m in members :: alone(m) != Some(rule)
  {
    hide Versions;
    var at := VersionsExactly(members, rule, alone, |members|);
    assert members[..|members|] == members;
    if exists m :: m in members && alone(m) == Some(rule) {
      var j := FirstOf(members, rule, alone);
      assert j in at;
    }
    if at != [] {
      assert at[0] in at && members[at[0]] in members;
    }
  }

  lemma {:induction false} FirstOf(members: seq<Member>, rule: string, alone: Member -> Option<string>) returns (i: nat)
    requires exists m :: m in members && alone(m) == Some(rule)
    ensures IsVersion(members, rule, alone, i)
  {
    i := 0;
    while alone(members[i]) != Some(rule)
      invariant i < |members| && forall j | 0 <= j < i :: alone(members[j]) != Some(rule)
      invariant exists j :: i <= j < |members| && alone(members[j]) == Some(rule)
      decreases |members| - i
    {
      i := i + 1;
    }
  }

  /** Puts the tried versions after the others, keeping the order of each. */
  method Divide(matches: seq<Member>, tried: Option<Tried>) returns (readable: bool, untried: seq<Member>, rejected: seq<Member>)
    ensures readable <==> forall m | m in matches :: tried.Some? ==> tried.value(m).Some?
    ensures readable ==> untried == Without(matches, tried) && rejected == Only(matches, tried)
  {
    if tried.None? {
      NoneTried(matches, tried);
      return true, matches, [];
    }
    untried, rejected := [], [];
    for i := 0 to |matches|
      invariant untried == Without(matches[..i], tried) && rejected == Only(matches[..i], tried)
      invariant forall j | 0 <= j < i :: tried.value(matches[j]).Some?
    {
      assert matches[..i + 1][..i] == matches[..i];
      var done := tried.value(matches[i]);
      if done.None? {
        return false, untried, rejected;
      }
      if done.value {
        rejected := rejected + [matches[i]];
      } else {
        untried := untried + [matches[i]];
      }
    }
    assert matches[..|matches|] == matches;
    readable := true;
  }

  function Without(matches: seq<Member>, tried: Option<Tried>): seq<Member> {
    if matches == [] then []
    else Without(matches[..|matches| - 1], tried) + if IsTried(matches[|matches| - 1], tried) then [] else [matches[|matches| - 1]]
  }

  function Only(matches: seq<Member>, tried: Option<Tried>): seq<Member> {
    if matches == [] then []
    else Only(matches[..|matches| - 1], tried) + if IsTried(matches[|matches| - 1], tried) then [matches[|matches| - 1]] else []
  }

  lemma {:induction false} NoneTried(matches: seq<Member>, tried: Option<Tried>)
    requires tried.None?
    ensures Without(matches, tried) == matches && Only(matches, tried) == []
  {
    if matches != [] {
      NoneTried(matches[..|matches| - 1], tried);
    }
  }

  /** By affinity, and among equals by name. */
  ghost predicate Closest(matches: seq<Member>, affinity: string -> int) {
    forall i, j | 0 <= i < j < |matches| :: Closer(matches[i], matches[j], affinity)
  }

  predicate Closer(a: Member, b: Member, affinity: string -> int) {
    affinity(a.name) > affinity(b.name) || (affinity(a.name) == affinity(b.name) && StringLe(a.name, b.name))
  }

  lemma NamesAreTotal()
    ensures Sorting.TotalPreorder(ByName())
  {
    forall a: string, b: string, c: string
      ensures StringLe(a, b) || StringLe(b, a)
      ensures StringLe(a, b) && StringLe(b, c) ==> StringLe(a, c)
    {
      StringLeFacts(a, b, c);
    }
    hide StringLe;
  }

  lemma NamesInOrder(versions: seq<Member>)
    ensures Sorting.SortedBy(Sorting.StableSort(versions, ByName()), ByName())
  {
    NamesAreTotal();
    Sorting.SortIsSorted(versions, ByName());
  }

  lemma ClosestInOrder(versions: seq<Member>, affinity: string -> int)
    ensures Closest(Sorting.StableSort(Sorting.StableSort(versions, ByName()), ByAffinity(affinity)), affinity)
  {
    hide StringLe;
    NamesAreTotal();
    assert Sorting.TotalPreorder(ByAffinity(affinity));
    Sorting.SortIsSorted(versions, ByName());
    var named := Sorting.StableSort(versions, ByName());
    Sorting.SortInOrder(named, ByAffinity(affinity), ByName());
    var closest := Sorting.StableSort(named, ByAffinity(affinity));
    forall i, j | 0 <= i < j < |closest| ensures Closer(closest[i], closest[j], affinity) {
      assert Sorting.Before(closest[i], closest[j], ByAffinity(affinity), ByName());
    }
  }

  lemma {:induction false} DividedFacts(matches: seq<Member>, tried: Option<Tried>)
    ensures multiset(Without(matches, tried)) + multiset(Only(matches, tried)) == multiset(matches)
    ensures forall m | m in Without(matches, tried) :: m in matches && !IsTried(m, tried)
    ensures forall m | m in Only(matches, tried) :: m in matches && IsTried(m, tried)
  {
    hide IsTried;
    if matches != [] {
      var rest, last := matches[..|matches| - 1], matches[|matches| - 1];
      DividedFacts(rest, tried);
      assert matches == rest + [last];
    }
  }

  lemma {:induction false} DividedClosest(matches: seq<Member>, tried: Option<Tried>, affinity: string -> int)
    requires Closest(matches, affinity)
    ensures Closest(Without(matches, tried), affinity) && Closest(Only(matches, tried), affinity)
  {
    hide Closer, IsTried;
    if matches != [] {
      var rest, last := matches[..|matches| - 1], matches[|matches| - 1];
      DividedClosest(rest, tried, affinity);
      DividedFacts(rest, tried);
      assert forall i | 0 <= i < |rest| :: rest[i] == matches[i] && Closer(matches[i], last, affinity);
      ClosestAppend(Without(rest, tried), rest, last, affinity);
      ClosestAppend(Only(rest, tried), rest, last, affinity);
    }
  }

  lemma ClosestAppend(part: seq<Member>, rest: seq<Member>, last: Member, affinity: string -> int)
    requires Closest(part, affinity) && (forall m | m in part :: m in rest) && forall i | 0 <= i < |rest| :: Closer(rest[i], last, affinity)
    ensures Closest(part + [last], affinity)
  {
    hide Closer;
    forall i | 0 <= i < |part| ensures Closer(part[i], last, affinity) {
      assert part[i] in part;
    }
  }

  lemma DivisionInOrder(closest: seq<Member>, untried: seq<Member>, rejected: seq<Member>, tried: Option<Tried>, affinity: string -> int)
    requires Closest(closest, affinity) && untried == Without(closest, tried) && rejected == Only(closest, tried)
    ensures InOrderOfChoice(untried + rejected, tried, affinity)
    ensures multiset(untried + rejected) == multiset(closest)
    ensures (forall m | m in untried :: !IsTried(m, tried)) && forall m | m in rejected :: IsTried(m, tried)
  {
    hide Without, Only, IsTried, Ahead, Closer;
    DividedFacts(closest, tried);
    DividedClosest(closest, tried, affinity);
    var all, n := untried + rejected, |untried|;
    forall i, j | 0 <= i < j < |all| ensures Ahead(all[i], all[j], tried, affinity) {
      if j < n {
        assert untried[i] in untried && untried[j] in untried;
        CloserIsAhead(untried[i], untried[j], tried, affinity);
      } else if i < n {
        assert untried[i] in untried && rejected[j - n] in rejected;
        UntriedIsAhead(untried[i], rejected[j - n], tried, affinity);
      } else {
        assert rejected[i - n] in rejected && rejected[j - n] in rejected;
        CloserIsAhead(rejected[i - n], rejected[j - n], tried, affinity);
      }
    }
  }

  lemma CloserIsAhead(a: Member, b: Member, tried: Option<Tried>, affinity: string -> int)
    requires Closer(a, b, affinity) && IsTried(a, tried) == IsTried(b, tried)
    ensures Ahead(a, b, tried, affinity)
  {
    hide StringLe;
  }

  lemma UntriedIsAhead(a: Member, b: Member, tried: Option<Tried>, affinity: string -> int)
    requires !IsTried(a, tried) && IsTried(b, tried)
    ensures Ahead(a, b, tried, affinity)
  {
    hide StringLe;
  }

  lemma RestIsBehind(versions: seq<Member>, untried: seq<Member>, rejected: seq<Member>, tried: Option<Tried>, affinity: string -> int)
    requires InOrderOfChoice(untried + rejected, tried, affinity) && multiset(untried + rejected) == multiset(versions) && |versions| > MAX_VERSIONS
    requires (forall m | m in untried :: !IsTried(m, tried)) && forall m | m in rejected :: IsTried(m, tried)
    ensures |untried| + |rejected| == |versions|
    ensures BestOf(versions, Chosen((untried + rejected)[..MAX_VERSIONS], |untried| > MAX_VERSIONS), tried, affinity)
  {
    hide Ahead, IsTried;
    var ordered := untried + rejected;
    assert |versions| == |multiset(versions)| == |multiset(ordered)| == |ordered|;
    var first, rest := ordered[..MAX_VERSIONS], ordered[MAX_VERSIONS..];
    assert first + rest == ordered;
    forall a, b | a in first && b in rest ensures Ahead(a, b, tried, affinity) {
      var i :| 0 <= i < |first| && first[i] == a;
      var j :| 0 <= j < |rest| && rest[j] == b;
      assert ordered[i] == a && ordered[MAX_VERSIONS + j] == b;
    }
    if |untried| > MAX_VERSIONS {
      assert rest[0] == untried[MAX_VERSIONS] && rest[0] in rest;
    } else {
      forall b | b in rest ensures IsTried(b, tried) {
        var j :| 0 <= j < |rest| && rest[j] == b;
        assert b == rejected[MAX_VERSIONS + j - |untried|];
      }
    }
  }

  /** a comes before b: it is untried and b was tried, or else it is closer to
      the release, or as close and not later by name. */
  predicate Precedes(a: Member, b: Member, tried: Option<Tried>, affinity: string -> int) {
    var aTried, bTried := tried.Some? && tried.value(a) == Some(true), tried.Some? && tried.value(b) == Some(true);
    || (!aTried && bTried)
    || (aTried == bTried && (affinity(a.name) > affinity(b.name) || (affinity(a.name) == affinity(b.name) && StringLe(a.name, b.name))))
  }

  /** Up to three versions are all chosen, by name. Of more the three that
      precede all others are, in that order, and an untried one is left out
      exactly if that is said. */
  lemma ChoiceRules(versions: seq<Member>, choice: Choice, tried: Option<Tried>, affinity: string -> int)
    requires choice.Chosen? && BestOf(versions, choice, tried, affinity)
    ensures |versions| <= 3 ==>
              && multiset(choice.members) == multiset(versions) && !choice.untriedLeft
              && forall i, j | 0 <= i < j < |choice.members| :: StringLe(choice.members[i].name, choice.members[j].name)
    ensures |versions| > 3 ==>
              var left := multiset(versions) - multiset(choice.members);
              && |choice.members| == 3 && multiset(choice.members) <= multiset(versions)
              && (forall i, j | 0 <= i < j < 3 :: Precedes(choice.members[i], choice.members[j], tried, affinity))
              && (forall a, b | a in choice.members && b in left :: Precedes(a, b, tried, affinity))
              && (choice.untriedLeft <==> exists b :: b in left && (tried.Some? ==> tried.value(b) != Some(true)))
  {
    hide StringLe, Ahead, IsTried, Precedes;
    if |versions| > 3 {
      var rest: seq<Member> :| multiset(choice.members + rest) == multiset(versions)
        && (forall a, b | a in choice.members && b in rest :: Ahead(a, b, tried, affinity))
        && (choice.untriedLeft <==> exists b :: b in rest && !IsTried(b, tried));
      LeftOut(versions, choice.members, rest);
      hide BestOf;
      ThreeChosen(choice, multiset(versions) - multiset(choice.members), rest, tried, affinity);
    } else {
      forall i, j | 0 <= i < j < |choice.members| ensures StringLe(choice.members[i].name, choice.members[j].name) {
        assert ByName()(choice.members[i], choice.members[j]);
      }
    }
  }

  lemma ThreeChosen(choice: Choice, left: multiset<Member>, rest: seq<Member>, tried: Option<Tried>, affinity: string -> int)
    requires choice.Chosen? && |choice.members| == 3 && InOrderOfChoice(choice.members, tried, affinity)
    requires forall b :: b in left <==> b in rest
    requires forall a, b | a in choice.members && b in rest :: Ahead(a, b, tried, affinity)
    requires choice.untriedLeft <==> exists b :: b in rest && !IsTried(b, tried)
    ensures forall i, j | 0 <= i < j < 3 :: Precedes(choice.members[i], choice.members[j], tried, affinity)
    ensures forall a, b | a in choice.members && b in left :: Precedes(a, b, tried, affinity)
    ensures choice.untriedLeft <==> exists b :: b in left && (tried.Some? ==> tried.value(b) != Some(true))
  {
    hide Ahead, IsTried, Precedes;
    forall a, b | Ahead(a, b, tried, affinity) ensures Precedes(a, b, tried, affinity) {
      AheadPrecedes(a, b, tried, affinity);
    }
    forall b: Member ensures !IsTried(b, tried) <==> (tried.Some? ==> tried.value(b) != Some(true)) {
      AheadPrecedes(b, b, tried, affinity);
    }
  }

  lemma LeftOut(versions: seq<Member>, members: seq<Member>, rest: seq<Member>)
    requires multiset(members + rest) == multiset(versions)
    ensures multiset(members) <= multiset(versions)
    ensures forall b :: b in multiset(versions) - multiset(members) <==> b in rest
  {
    assert multiset(members + rest) == multiset(members) + multiset(rest);
    assert multiset(versions) - multiset(members) == multiset(rest);
  }

  lemma AheadPrecedes(a: Member, b: Member, tried: Option<Tried>, affinity: string -> int)
    ensures Ahead(a, b, tried, affinity) ==> Precedes(a, b, tried, affinity)
    ensures !IsTried(b, tried) <==> (tried.Some? ==> tried.value(b) != Some(true))
  {
    hide StringLe;
  }

  /** A tried version is never timed in place of an untried one, and when every
      version returned was tried, the pack is exhausted unless untriedLeft. */
  lemma UntriedComeFirst(versions: seq<Member>, choice: Choice, tried: Option<Tried>, affinity: string -> int, b: Member)
    requires choice.Chosen? && BestOf(versions, choice, tried, affinity)
    requires b in versions && b !in choice.members && !IsTried(b, tried)
    ensures choice.untriedLeft && forall a | a in choice.members :: !IsTried(a, tried)
  {
    hide Ahead, IsTried, InOrderOfChoice;
    assert b in multiset(versions);
    assert b !in multiset(choice.members);
    var rest: seq<Member> :| multiset(choice.members + rest) == multiset(versions)
      && (forall a, b | a in choice.members && b in rest :: Ahead(a, b, tried, affinity))
      && (choice.untriedLeft <==> exists b :: b in rest && !IsTried(b, tried));
    assert b in multiset(choice.members + rest);
    assert b in rest;
    forall a | a in choice.members ensures !IsTried(a, tried) {
      AheadOfUntried(a, b, tried, affinity);
    }
  }

  lemma AheadOfUntried(a: Member, b: Member, tried: Option<Tried>, affinity: string -> int)
    requires Ahead(a, b, tried, affinity) && !IsTried(b, tried)
    ensures !IsTried(a, tried)
  {
    hide StringLe, IsTried;
  }
}
