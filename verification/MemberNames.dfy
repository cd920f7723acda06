/** File names for the subtitles of an archive: unique ignoring case, each
    different text once per name, and independent of the order in which the
    archive lists its members (internal/pack/archive.go:402-541). The case
    mapping of a character is a parameter. */
module MemberNames {
  import opened Text
  import Sorting

  /** A subtitle: its path in the archive, its file name, its text, and the
      checksum of the text. */
  datatype Member = Member(path: string, name: string, text: string, sum: string)

  datatype Entry = Entry(index: nat, member: Member)

  type Case = char -> char

  function Low(s: string, lower: Case): (r: string)
    ensures |r| == |s| && forall i | 0 <= i < |s| :: r[i] == lower(s[i])
  {
    seq(|s|, i requires 0 <= i < |s| => lower(s[i]))
  }

  /** Bytes of the UTF-8 encoding. */
  function Bytes(s: string): nat {
    if s == "" then 0
    else (if s[0] < '\U{80}' then 1 else if s[0] < '\U{800}' then 2 else if s[0] < '\U{10000}' then 3 else 4) + Bytes(s[1..])
  }

  const LONGEST_NAME := 255

  // ---- orders ------------------------------------------------------------

  predicate MemberLe(a: Member, b: Member) {
    if a.path != b.path then StringLe(a.path, b.path) else StringLe(a.sum, b.sum)
  }

  function Strings(): (string, string) -> bool { (a: string, b: string) => StringLe(a, b) }
  function Members(): (Member, Member) -> bool { (a: Member, b: Member) => MemberLe(a, b) }
  function Entries(): (Entry, Entry) -> bool { (a: Entry, b: Entry) => MemberLe(a.member, b.member) }

  lemma OrdersAreTotal()
    ensures Sorting.TotalPreorder(Strings()) && Sorting.TotalPreorder(Members()) && Sorting.TotalPreorder(Entries())
  {
    forall a: string, b: string, c: string
      ensures StringLe(a, b) || StringLe(b, a)
      ensures StringLe(a, b) && StringLe(b, c) ==> StringLe(a, c)
      ensures StringLe(a, b) && StringLe(b, a) ==> a == b
    {
      StringLeFacts(a, b, c);
    }
    hide StringLe;
    assert forall x: Member, y: Member, z: Member :: MemberLe(x, y) && MemberLe(y, z) ==> MemberLe(x, z);
  }

  // ---- groups ------------------------------------------------------------

  function Listed(subtitles: seq<Member>): seq<Entry> {
    seq(|subtitles|, i requires 0 <= i < |subtitles| => Entry(i, subtitles[i]))
  }

  function KeyOf(m: Member, lower: Case): string { Low(m.name, lower) }

  /** The lower-cased names, each once, in order of appearance. */
  function Keys(subtitles: seq<Member>, lower: Case): seq<string> {
    if subtitles == [] then []
    else
      var before := Keys(subtitles[..|subtitles| - 1], lower);
      var key := KeyOf(subtitles[|subtitles| - 1], lower);
      if key in before then before else before + [key]
  }

  function SortedKeys(subtitles: seq<Member>, lower: Case): seq<string> {
    Sorting.StableSort(Keys(subtitles, lower), Strings())
  }

  /** The entries of a name, in archive order. */
  function GroupOf(entries: seq<Entry>, key: string, lower: Case): seq<Entry> {
    if entries == [] then []
    else (if KeyOf(entries[0].member, lower) == key then [entries[0]] else []) + GroupOf(entries[1..], key, lower)
  }

  /** The first entry of each checksum that has not been seen. */
  function FirstOfEach(entries: seq<Entry>, seen: set<string>): seq<Entry> {
    if entries == [] then []
    else if entries[0].member.sum in seen then FirstOfEach(entries[1..], seen)
    else [entries[0]] + FirstOfEach(entries[1..], seen + {entries[0].member.sum})
  }

  /** What is kept of a name, in path order. */
  function KeptOf(subtitles: seq<Member>, key: string, lower: Case): seq<Entry> {
    FirstOfEach(Sorting.StableSort(GroupOf(Listed(subtitles), key, lower), Entries()), {})
  }

  function Records(entries: seq<Entry>): (r: seq<Member>)
    ensures |r| == |entries| && forall i | 0 <= i < |entries| :: r[i] == entries[i].member
  {
    seq(|entries|, i requires 0 <= i < |entries| => entries[i].member)
  }

  function Groups(subtitles: seq<Member>, keys: seq<string>, lower: Case): (r: seq<seq<Entry>>)
    ensures |r| == |keys| && forall g | 0 <= g < |keys| :: r[g] == KeptOf(subtitles, keys[g], lower)
  {
    seq(|keys|, g requires 0 <= g < |keys| => KeptOf(subtitles, keys[g], lower))
  }

  function AllRecords(groups: seq<seq<Entry>>): (r: seq<seq<Member>>)
    ensures |r| == |groups| && forall g | 0 <= g < |groups| :: r[g] == Records(groups[g])
  {
    seq(|groups|, g requires 0 <= g < |groups| => Records(groups[g]))
  }

  // ---- folder prefixes ---------------------------------------------------

  /** The folders of a cleaned path, outermost first: what its parts leave on a
      stack, without the last part, the file. */
  function Parts(path: string): (r: seq<string>)
    ensures r != []
  {
    if path == "" then [""]
    else
      var rest := Parts(path[1..]);
      if path[0] == '/' || path[0] == '\\' then [""] + rest else [[path[0]] + rest[0]] + rest[1..]
  }

  /** Below a root there is nothing to go up from. */
  function Cleaned(parts: seq<string>, rooted: bool): seq<string> {
    if parts == [] then []
    else
      var before, part := Cleaned(parts[..|parts| - 1], rooted), parts[|parts| - 1];
      if part == "" || part == "." then before
      else if part == ".." && before != [] && before[|before| - 1] != ".." then before[..|before| - 1]
      else if part == ".." && before == [] && rooted then []
      else before + [part]
  }

  function MemberFolders(path: string): seq<string> {
    var parts := Parts(path);
    var folders := parts[..|parts| - 1];
    Cleaned(folders, folders != [] && folders[0] == "")
  }

  /** A member's prefix from its last folders, up to a number of them. */
  function Prefix(path: seq<string>, count: nat): string {
    if path == [] then "" else Join(path[if |path| > count then |path| - count else 0..], " - ") + " - "
  }

  function PrefixesAt(folders: seq<seq<string>>, count: nat): (r: seq<string>)
    ensures |r| == |folders| && forall i | 0 <= i < |folders| :: r[i] == Prefix(folders[i], count)
  {
    seq(|folders|, i requires 0 <= i < |folders| => Prefix(folders[i], count))
  }

  predicate Apart(names: seq<string>, lower: Case) {
    forall i, j | 0 <= i < j < |names| :: Low(names[i], lower) != Low(names[j], lower)
  }

  function Depth(folders: seq<seq<string>>): nat {
    if folders == [] then 0
    else
      var before, last := Depth(folders[..|folders| - 1]), |folders[|folders| - 1]|;
      if last > before then last else before
  }

  /** Tries one more folder until all prefixes differ or all folders are in. */
  function PrefixesFrom(folders: seq<seq<string>>, count: nat, lower: Case): seq<string>
    decreases Depth(folders) - count
  {
    if count >= Depth(folders) then PrefixesAt(folders, Depth(folders))
    else if Apart(PrefixesAt(folders, count), lower) then PrefixesAt(folders, count)
    else PrefixesFrom(folders, count + 1, lower)
  }

  function Prefixes(folders: seq<seq<string>>, lower: Case): seq<string> { PrefixesFrom(folders, 1, lower) }

  method DistinguishingPrefixes(folders: seq<seq<string>>, lower: Case) returns (prefixes: seq<string>)
    ensures prefixes == Prefixes(folders, lower)
  {
    var depth: nat := 0;
    for i := 0 to |folders|
      invariant depth == Depth(folders[..i])
    {
      assert folders[..i + 1][..i] == folders[..i];
      depth := if |folders[i]| > depth then |folders[i]| else depth;
    }
    assert folders[..|folders|] == folders;
    prefixes := FirstApart(folders, depth, lower);
  }

  method FirstApart(folders: seq<seq<string>>, depth: nat, lower: Case) returns (prefixes: seq<string>)
    requires depth == Depth(folders)
    ensures prefixes == Prefixes(folders, lower)
  {
    hide Apart, Depth, Prefix;
    prefixes := PrefixesAt(folders, 0);
    for count := 1 to depth + 1
      invariant PrefixesFrom(folders, count, lower) == Prefixes(folders, lower)
      invariant prefixes == PrefixesAt(folders, count - 1)
    {
      prefixes := PrefixesAt(folders, count);
      var unique := AllDifferent(prefixes, lower);
      if unique {
        return;
      }
    }
  }

  method AllDifferent(prefixes: seq<string>, lower: Case) returns (unique: bool)
    ensures unique <==> Apart(prefixes, lower)
  {
    unique := true;
    var seen: set<string> := {};
    for i := 0 to |prefixes|
      invariant forall s :: s in seen <==> exists j | 0 <= j < i :: s == Low(prefixes[j], lower)
      invariant unique <==> Apart(prefixes[..i], lower)
    {
      var key := Low(prefixes[i], lower);
      assert prefixes[..i + 1] == prefixes[..i] + [prefixes[i]];
      ApartAppend(prefixes[..i], prefixes[i], lower);
      unique := unique && key !in seen;
      seen := seen + {key};
    }
    assert prefixes[..|prefixes|] == prefixes;
  }

  lemma ApartAppend(prefixes: seq<string>, p: string, lower: Case)
    ensures Apart(prefixes + [p], lower) <==> Apart(prefixes, lower) && forall j | 0 <= j < |prefixes| :: Low(prefixes[j], lower) != Low(p, lower)
  {
    var more := prefixes + [p];
    assert more[|prefixes|] == p;
    assert forall j | 0 <= j < |prefixes| :: more[j] == prefixes[j];
  }

  lemma {:induction false} DepthFacts(folders: seq<seq<string>>, i: nat)
    requires i < |folders|
    ensures |folders[i]| <= Depth(folders)
  {
    if i < |folders| - 1 {
      DepthFacts(folders[..|folders| - 1], i);
    }
  }

  /** The prefixes use the fewest trailing folders, at least one, that tell all
      members apart, and all folders when no number does. */
  lemma {:induction false} PrefixesAreFewest(folders: seq<seq<string>>, count: nat, lower: Case) returns (used: nat)
    ensures PrefixesFrom(folders, count, lower) == PrefixesAt(folders, used)
    ensures count <= Depth(folders) ==> count <= used <= Depth(folders)
    ensures used <= Depth(folders)
    ensures used < Depth(folders) ==> Apart(PrefixesAt(folders, used), lower)
    ensures forall fewer: nat | count <= fewer < used && fewer < Depth(folders) :: !Apart(PrefixesAt(folders, fewer), lower)
    decreases Depth(folders) - count
  {
    hide Apart, PrefixesAt, Depth;
    if count >= Depth(folders) {
      used := Depth(folders);
    } else if Apart(PrefixesAt(folders, count), lower) {
      used := count;
    } else {
      used := PrefixesAreFewest(folders, count + 1, lower);
    }
  }

  // ---- names -------------------------------------------------------------

  /** The extension of a file name, from its last dot, or "". */
  function Extension(name: string): (r: string)
    ensures |r| <= |name| && name[|name| - |r|..] == r
  {
    if name == "" then "" else if name[|name| - 1] == '.' then "." else
      var rest := Extension(name[..|name| - 1]);
      if rest == "" then "" else rest + [name[|name| - 1]]
  }

  function Stem(name: string): string { name[..|name| - |Extension(name)|] }

  function Numbered(name: string, number: nat): string {
    Stem(name) + " (" + Itoa(number) + ")" + Extension(name)
  }

  /** The first number from n on whose name is not taken. */
  function FreeNumber(name: string, n: nat, taken: set<string>, lower: Case): nat
    decreases |taken|
  {
    var low := Low(Numbered(name, n), lower);
    if low in taken then FreeNumber(name, n + 1, taken - {low}, lower) else n
  }

  predicate DigitsStay(lower: Case) {
    forall c: char | IsDigit(c) :: lower(c) == c
  }

  /** Whether a member falls back on its bare name. */
  predicate FallsBack(m: Member, prefix: string, taken: set<string>, lower: Case) {
    prefix == "" || Low(prefix + m.name, lower) in taken || Bytes(prefix + m.name) > LONGEST_NAME
  }

  function NameFor(m: Member, prefix: string, taken: set<string>, bareUsed: bool, lower: Case): string {
    if !FallsBack(m, prefix, taken, lower) then prefix + m.name
    else if !bareUsed then m.name
    else Numbered(m.name, FreeNumber(m.name, 2, taken, lower))
  }

  /** The names of a group's members from some position on; None when one is
      too long for the file system. */
  function NamesFrom(group: seq<Member>, prefixes: seq<string>, taken: set<string>, bareUsed: bool, lower: Case): Option<seq<string>>
    requires |prefixes| == |group|
  {
    if group == [] then Some([])
    else
      var name := NameFor(group[0], prefixes[0], taken, bareUsed, lower);
      if Bytes(name) > LONGEST_NAME then None
      else
        var rest := NamesFrom(group[1..], prefixes[1..], taken + {Low(name, lower)}, bareUsed || FallsBack(group[0], prefixes[0], taken, lower), lower);
        if rest.None? then None else Some([name] + rest.value)
  }

  function FoldersOf(group: seq<Member>): (r: seq<seq<string>>)
    ensures |r| == |group|
  {
    seq(|group|, i requires 0 <= i < |group| => MemberFolders(group[i].path))
  }

  lemma {:induction false} PrefixCount(folders: seq<seq<string>>, lower: Case)
    ensures |Prefixes(folders, lower)| == |folders|
  {
    var used := PrefixesAreFewest(folders, 1, lower);
  }

  /** A name that only one text has is left alone. */
  function GroupNames(group: seq<Member>, taken: set<string>, lower: Case): Option<seq<string>> {
    if |group| < 2 then Some(seq(|group|, i requires 0 <= i < |group| => group[i].name))
    else
      PrefixCount(FoldersOf(group), lower);
      NamesFrom(group, Prefixes(FoldersOf(group), lower), taken, false, lower)
  }

  function Lows(names: seq<string>, lower: Case): set<string> { set i | 0 <= i < |names| :: Low(names[i], lower) }

  /** The names of every group, in key order; each group sees those taken by
      the groups before. */
  function AllNames(groups: seq<seq<Member>>, taken: set<string>, lower: Case): Option<seq<seq<string>>> {
    if groups == [] then Some([])
    else
      var names := GroupNames(groups[0], taken, lower);
      if names.None? then None
      else
        var rest := AllNames(groups[1..], if |groups[0]| < 2 then taken else taken + Lows(names.value, lower), lower);
        if rest.None? then None else Some([names.value] + rest.value)
  }

  /** The name each kept entry gets, by its place in the archive. */
  function AssignGroup(entries: seq<Entry>, names: seq<string>): map<nat, string>
    requires |entries| == |names|
  {
    if entries == [] then map[]
    else AssignGroup(entries[..|entries| - 1], names[..|names| - 1])[entries[|entries| - 1].index := names[|names| - 1]]
  }

  predicate Shaped(groups: seq<seq<Entry>>, names: seq<seq<string>>) {
    |names| == |groups| && forall g | 0 <= g < |groups| :: |names[g]| == |groups[g]|
  }

  function Assigned(groups: seq<seq<Entry>>, names: seq<seq<string>>): map<nat, string>
    requires Shaped(groups, names)
  {
    if groups == [] then map[]
    else
      Assigned(groups[..|groups| - 1], names[..|names| - 1]) + AssignGroup(groups[|groups| - 1], names[|names| - 1])
  }

  /** The named subtitles, in archive order. */
  function Picked(subtitles: seq<Member>, final: map<nat, string>): seq<Member> {
    if subtitles == [] then []
    else
      var last: nat := |subtitles| - 1;
      Picked(subtitles[..last], final) + if last in final then [subtitles[last].(name := final[last])] else []
  }

  function KeySet(keys: seq<string>): set<string> { set k | k in keys }

  function ChosenNames(subtitles: seq<Member>, lower: Case): Option<seq<seq<string>>> {
    var keys := SortedKeys(subtitles, lower);
    AllNames(AllRecords(Groups(subtitles, keys, lower)), KeySet(keys), lower)
  }

  function Result(subtitles: seq<Member>, lower: Case): Option<seq<Member>> {
    var names := ChosenNames(subtitles, lower);
    var groups := Groups(subtitles, SortedKeys(subtitles, lower), lower);
    if names.None? then None
    else
      NamesShaped(AllRecords(groups), KeySet(SortedKeys(subtitles, lower)), lower);
      Some(Picked(subtitles, Assigned(groups, names.value)))
  }

  lemma {:induction false} NamesFromLength(group: seq<Member>, prefixes: seq<string>, taken: set<string>, bareUsed: bool, lower: Case)
    requires |prefixes| == |group|
    ensures var names := NamesFrom(group, prefixes, taken, bareUsed, lower); names.Some? ==> |names.value| == |group|
  {
    if group != [] {
      var name := NameFor(group[0], prefixes[0], taken, bareUsed, lower);
      NamesFromLength(group[1..], prefixes[1..], taken + {Low(name, lower)}, bareUsed || FallsBack(group[0], prefixes[0], taken, lower), lower);
    }
  }

  lemma GroupNamesLength(group: seq<Member>, taken: set<string>, lower: Case)
    ensures var names := GroupNames(group, taken, lower); names.Some? ==> |names.value| == |group|
  {
    if |group| >= 2 {
      PrefixCount(FoldersOf(group), lower);
      NamesFromLength(group, Prefixes(FoldersOf(group), lower), taken, false, lower);
    }
  }

  function TakenAfter(group: seq<Member>, names: seq<string>, taken: set<string>, lower: Case): set<string> {
    if |group| < 2 then taken else taken + Lows(names, lower)
  }

  lemma {:induction false} NamesShaped(groups: seq<seq<Member>>, taken: set<string>, lower: Case)
    ensures var names := AllNames(groups, taken, lower);
            names.Some? ==> |names.value| == |groups| && forall g | 0 <= g < |groups| :: |names.value[g]| == |groups[g]|
  {
    if groups != [] {
      hide GroupNames;
      GroupNamesLength(groups[0], taken, lower);
      var names := GroupNames(groups[0], taken, lower);
      if names.Some? {
        NamesShaped(groups[1..], TakenAfter(groups[0], names.value, taken, lower), lower);
      }
    }
  }

  // ---- the passes over the archive ---------------------------------------

  /** Groups the subtitles by name, naming the keys in order of appearance. */
  method GroupByName(subtitles: seq<Member>, lower: Case) returns (groups: map<string, seq<Entry>>, keys: seq<string>)
    ensures keys == Keys(subtitles, lower) && forall key :: key in groups <==> key in keys
    ensures forall key | key in groups :: groups[key] == GroupOf(Listed(subtitles), key, lower)
  {
    hide GroupOf, Low;
    groups, keys := map[], [];
    NothingGrouped(lower);
    for index := 0 to |subtitles|
      invariant keys == Keys(subtitles[..index], lower) && forall key :: key in groups <==> key in keys
      invariant forall key | key in groups :: groups[key] == GroupBefore(subtitles, index, key, lower)
      invariant forall key | key !in groups :: GroupBefore(subtitles, index, key, lower) == []
    {
      var key := Low(subtitles[index].name, lower);
      assert subtitles[..index + 1][..index] == subtitles[..index];
      forall other: string
        ensures GroupBefore(subtitles, index + 1, other, lower) ==
                GroupBefore(subtitles, index, other, lower) + if other == key then [Entry(index, subtitles[index])] else []
      {
        NextOfGroup(subtitles, index, other, lower);
      }
      hide GroupBefore;
      if key !in groups {
        keys := keys + [key];
        groups := groups[key := []];
      }
      groups := groups[key := groups[key] + [Entry(index, subtitles[index])]];
    }
    assert subtitles[..|subtitles|] == subtitles && Listed(subtitles)[..|subtitles|] == Listed(subtitles);
  }

  function GroupBefore(subtitles: seq<Member>, n: nat, key: string, lower: Case): seq<Entry>
    requires n <= |subtitles|
  {
    GroupOf(Listed(subtitles)[..n], key, lower)
  }

  lemma NothingGrouped(lower: Case)
    ensures forall key :: GroupOf([], key, lower) == []
  {
  }

  lemma NextOfGroup(subtitles: seq<Member>, n: nat, key: string, lower: Case)
    requires n < |subtitles|
    ensures GroupBefore(subtitles, n + 1, key, lower) ==
            GroupBefore(subtitles, n, key, lower) + if key == KeyOf(subtitles[n], lower) then [Entry(n, subtitles[n])] else []
  {
    assert Listed(subtitles)[..n + 1] == Listed(subtitles)[..n] + [Entry(n, subtitles[n])];
    GroupAppend(Listed(subtitles)[..n], Entry(n, subtitles[n]), key, lower);
  }

  lemma {:induction false} GroupAppend(entries: seq<Entry>, e: Entry, key: string, lower: Case)
    ensures GroupOf(entries + [e], key, lower) == GroupOf(entries, key, lower) + if KeyOf(e.member, lower) == key then [e] else []
  {
    if entries == [] {
      assert entries + [e] == [e] && [e][1..] == [];
    } else {
      assert (entries + [e])[1..] == entries[1..] + [e];
      GroupAppend(entries[1..], e, key, lower);
    }
  }

  method KeepFirst(group: seq<Entry>) returns (distinct: seq<Entry>)
    ensures distinct == FirstOfEach(group, {})
  {
    distinct := [];
    var kept: set<string> := {};
    assert group[0..] == group;
    for i := 0 to |group|
      invariant distinct + FirstOfEach(group[i..], kept) == FirstOfEach(group, {})
    {
      var entry := group[i];
      assert group[i..][1..] == group[i + 1..];
      if entry.member.sum in kept {
        continue;
      }
      kept := kept + {entry.member.sum};
      assert distinct + ([entry] + FirstOfEach(group[i + 1..], kept)) == (distinct + [entry]) + FirstOfEach(group[i + 1..], kept);
      distinct := distinct + [entry];
    }
    assert group[|group|..] == [];
  }

  /** The unbounded numbering loop; it ends because only finitely many names
      are taken and no two numbers give the same name. */
  method NumberName(m: Member, taken: set<string>, lower: Case) returns (name: string)
    requires DigitsStay(lower)
    ensures name == Numbered(m.name, FreeNumber(m.name, 2, taken, lower))
    ensures Low(name, lower) !in taken
  {
    FreeNumberIsFree(m.name, 2, taken, lower);
    var extension := Extension(m.name);
    var stem := Stem(m.name);
    var number: nat := 2;
    ghost var left := taken;
    name := stem + " (" + Itoa(number) + ")" + extension;
    while Low(name, lower) in taken
      invariant number >= 2 && name == Numbered(m.name, number)
      invariant FreeNumber(m.name, number, left, lower) == FreeNumber(m.name, 2, taken, lower)
      invariant left <= taken && forall k: nat | k >= number && Low(Numbered(m.name, k), lower) in taken :: Low(Numbered(m.name, k), lower) in left
      decreases |left|
    {
      forall k: nat | k > number ensures Low(Numbered(m.name, k), lower) != Low(name, lower) {
        if Low(Numbered(m.name, k), lower) == Low(name, lower) {
          NumbersTell(m.name, k, number, lower);
        }
      }
      left := left - {Low(name, lower)};
      number := number + 1;
      name := stem + " (" + Itoa(number) + ")" + extension;
    }
  }

  lemma NumbersTell(name: string, a: nat, b: nat, lower: Case)
    requires DigitsStay(lower) && Low(Numbered(name, a), lower) == Low(Numbered(name, b), lower)
    ensures a == b
  {
    hide Stem, Extension, Itoa;
    assert Numbered(name, a) == Stem(name) + " (" + Itoa(a) + (")" + Extension(name));
    assert Numbered(name, b) == Stem(name) + " (" + Itoa(b) + (")" + Extension(name));
    LowInside(Stem(name) + " (", Itoa(a), Itoa(b), ")" + Extension(name), lower);
    assert Low(Itoa(a), lower) == Itoa(a) && Low(Itoa(b), lower) == Itoa(b);
    NumberOfItoa(a);
    NumberOfItoa(b);
  }

  lemma LowAppend(s: string, t: string, lower: Case)
    ensures Low(s + t, lower) == Low(s, lower) + Low(t, lower)
  {
  }

  lemma LowInside(before: string, s: string, t: string, after: string, lower: Case)
    requires Low(before + s + after, lower) == Low(before + t + after, lower)
    ensures Low(s, lower) == Low(t, lower)
  {
    LowAppend(before + s, after, lower);
    LowAppend(before + t, after, lower);
    LowAppend(before, s, lower);
    LowAppend(before, t, lower);
    var x, y := Low(before + s + after, lower), Low(before + t + after, lower);
    assert |x| == |y|;
    assert x[|before|..|before| + |s|] == Low(s, lower);
    assert y[|before|..|before| + |t|] == Low(t, lower);
  }

  lemma {:induction false} FreeNumberIsFree(name: string, n: nat, taken: set<string>, lower: Case)
    requires DigitsStay(lower)
    ensures var r := FreeNumber(name, n, taken, lower);
            && r >= n && Low(Numbered(name, r), lower) !in taken
            && forall k: nat | n <= k < r :: Low(Numbered(name, k), lower) in taken
    decreases |taken|
  {
    hide Numbered;
    var low := Low(Numbered(name, n), lower);
    if low in taken {
      FreeNumberIsFree(name, n + 1, taken - {low}, lower);
      var r := FreeNumber(name, n + 1, taken - {low}, lower);
      if Low(Numbered(name, r), lower) == low {
        NumbersTell(name, r, n, lower);
      }
    }
  }

  /** Names the different texts of one name, in path order. */
  method NameGroup(group: seq<Member>, prefixes: seq<string>, before: set<string>, lower: Case) returns (names: Option<seq<string>>, taken: set<string>)
    requires DigitsStay(lower) && |prefixes| == |group|
    ensures names == NamesFrom(group, prefixes, before, false, lower)
    ensures names.Some? ==> taken == before + Lows(names.value, lower)
  {
    taken := before;
    var done: seq<string> := [];
    var bareUsed := false;
    assert group[0..] == group && prefixes[0..] == prefixes && group[|group|..] == [];
    AfterNothing(NamesFrom(group, prefixes, before, false, lower));
    for position := 0 to |group|
      invariant |done| == position && taken == before + Lows(done, lower)
      invariant NamesFrom(group, prefixes, before, false, lower)
             == After(done, NamesFrom(group[position..], prefixes[position..], taken, bareUsed, lower))
    {
      var subtitle, prefix := group[position], prefixes[position];
      ghost var bareBefore := bareUsed;
      assert group[position..][1..] == group[position + 1..] && prefixes[position..][1..] == prefixes[position + 1..];
      var name := prefix + subtitle.name;
      if prefix == "" || Low(name, lower) in taken || Bytes(name) > LONGEST_NAME {
        name := subtitle.name;
        if bareUsed {
          name := NumberName(subtitle, taken, lower);
        }
        bareUsed := true;
      }
      assert name == NameFor(subtitle, prefix, taken, bareBefore, lower);
      if Bytes(name) > LONGEST_NAME {
        return None, taken;
      }
      LowsAppend(done, name, lower);
      AfterOne(done, name, NamesFrom(group[position + 1..], prefixes[position + 1..], taken + {Low(name, lower)}, bareUsed, lower));
      taken := taken + {Low(name, lower)};
      done := done + [name];
    }
    names := Some(done);
  }

  function After<T>(done: seq<T>, rest: Option<seq<T>>): Option<seq<T>> {
    if rest.None? then None else Some(done + rest.value)
  }

  lemma AfterNothing<T>(rest: Option<seq<T>>)
    ensures After([], rest) == rest
    ensures forall done: seq<T> :: After(done, Some([])) == Some(done)
  {
    assert forall done: seq<T> :: done + [] == done;
    if rest.Some? {
      assert [] + rest.value == rest.value;
    }
  }

  lemma AfterOne<T>(done: seq<T>, x: T, rest: Option<seq<T>>)
    ensures After(done + [x], rest) == After(done, After([x], rest))
  {
    if rest.Some? {
      assert done + [x] + rest.value == done + ([x] + rest.value);
    }
  }

  lemma LowsAppend(names: seq<string>, name: string, lower: Case)
    ensures Lows(names + [name], lower) == Lows(names, lower) + {Low(name, lower)}
  {
    var more := names + [name];
    assert more[|names|] == name && forall i | 0 <= i < |names| :: more[i] == names[i];
    forall x | x in Lows(names, lower) + {Low(name, lower)} ensures x in Lows(more, lower) {
      if x == Low(name, lower) {
        assert x == Low(more[|names|], lower);
      } else {
        var i :| 0 <= i < |names| && x == Low(names[i], lower);
        assert x == Low(more[i], lower);
      }
    }
  }

  lemma GroupStep(all: seq<seq<Entry>>, i: nat, done: seq<seq<string>>, taken: set<string>, final: map<nat, string>,
                  target: Option<seq<seq<string>>>, lower: Case)
    requires i < |all| && |done| == i && Shaped(all[..i], done) && final == Assigned(all[..i], done)
    requires target == After(done, AllNames(AllRecords(all)[i..], taken, lower))
    ensures var names := GroupNames(Records(all[i]), taken, lower);
            if names.None? then target == None
            else && |names.value| == |all[i]| && Shaped(all[..i + 1], done + [names.value])
                 && final + AssignGroup(all[i], names.value) == Assigned(all[..i + 1], done + [names.value])
                 && target == After(done + [names.value], AllNames(AllRecords(all)[i + 1..], TakenAfter(Records(all[i]), names.value, taken, lower), lower))
  {
    hide GroupNames, AssignGroup, Lows, After;
    var records := Records(all[i]);
    var names := GroupNames(records, taken, lower);
    assert AllRecords(all)[i..][1..] == AllRecords(all)[i + 1..] && AllRecords(all)[i..][0] == records;
    AllNamesHead(AllRecords(all)[i..], taken, lower);
    if names.None? {
      AfterError(done);
    } else {
      GroupNamesLength(records, taken, lower);
      AfterOne(done, names.value, AllNames(AllRecords(all)[i + 1..], TakenAfter(records, names.value, taken, lower), lower));
      assert all[..i + 1][..i] == all[..i] && (done + [names.value])[..i] == done;
    }
  }

  lemma AfterError<T>(done: seq<T>)
    ensures After(done, None) == None
  {
  }

  /** The names of a list of groups begin with those of its first group. */
  lemma AllNamesHead(groups: seq<seq<Member>>, taken: set<string>, lower: Case)
    requires groups != []
    ensures var names := GroupNames(groups[0], taken, lower);
            AllNames(groups, taken, lower) ==
              if names.None? then None
              else After([names.value], AllNames(groups[1..], TakenAfter(groups[0], names.value, taken, lower), lower))
  {
    hide GroupNames, Lows;
  }

  method AssignMemberNames(subtitles: seq<Member>, lower: Case) returns (named: Option<seq<Member>>)
    requires DigitsStay(lower)
    ensures named == Result(subtitles, lower)
  {
    hide DigitsStay, GroupNames, AllNames, Assigned, AssignGroup, Keys, GroupOf, FirstOfEach, Picked, Prefixes, NamesFrom, After, Lows;
    var groups, keys := GroupByName(subtitles, lower);
    Sorting.SortKeepsElements(keys, Strings());
    keys := Sorting.StableSort(keys, Strings());
    ghost var all := Groups(subtitles, keys, lower);
    ghost var target := ChosenNames(subtitles, lower);
    NamesShaped(AllRecords(all), KeySet(keys), lower);
    var taken := KeySet(keys);
    var final: map<nat, string> := map[];
    ghost var done: seq<seq<string>> := [];
    Begins(all, taken, lower);
    for i := 0 to |keys|
      invariant |done| == i && Shaped(all[..i], done) && final == Assigned(all[..i], done)
      invariant target == After(done, AllNames(AllRecords(all)[i..], taken, lower))
    {
      GroupStep(all, i, done, taken, final, target, lower);
      var group := Sorting.StableSort(groups[keys[i]], Entries());
      var distinct := KeepFirst(group);
      assert distinct == all[i];
      var names;
      names, taken := NameDistinct(Records(distinct), taken, lower);
      if names.None? {
        return None;
      }
      final := final + AssignGroup(distinct, names.value);
      done := done + [names.value];
    }
    Ends(all, done, taken, lower);
    named := Some(Picked(subtitles, final));
  }

  lemma Begins(all: seq<seq<Entry>>, taken: set<string>, lower: Case)
    ensures Shaped(all[..0], []) && Assigned(all[..0], []) == map[]
    ensures AllNames(AllRecords(all), taken, lower) == After([], AllNames(AllRecords(all)[0..], taken, lower))
  {
    assert AllRecords(all)[0..] == AllRecords(all);
    AfterNothing(AllNames(AllRecords(all), taken, lower));
  }

  lemma Ends(all: seq<seq<Entry>>, done: seq<seq<string>>, taken: set<string>, lower: Case)
    ensures all[..|all|] == all
    ensures After(done, AllNames(AllRecords(all)[|all|..], taken, lower)) == Some(done)
  {
    assert AllRecords(all)[|all|..] == [];
    AfterNothing(Some(done));
  }

  method NameDistinct(records: seq<Member>, taken: set<string>, lower: Case) returns (names: Option<seq<string>>, after: set<string>)
    requires DigitsStay(lower)
    ensures names == GroupNames(records, taken, lower)
    ensures names.Some? ==> after == TakenAfter(records, names.value, taken, lower)
  {
    if |records| < 2 {
      return Some(seq(|records|, j requires 0 <= j < |records| => records[j].name)), taken;
    }
    var prefixes := DistinguishingPrefixes(FoldersOf(records), lower);
    PrefixCount(FoldersOf(records), lower);
    names, after := NameGroup(records, prefixes, taken, lower);
  }
}
