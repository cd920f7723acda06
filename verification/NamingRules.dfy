/** Which name each subtitle of an archive gets: its folders in front when
    others share its name, the bare name once, and then numbers
    (internal/pack/archive.go:402-541). */
module NamingRules {
  import opened Text
  import Sorting
  import opened MemberNames
  import opened MemberNaming

  // ---- folders of a path -------------------------------------------------

  predicate Separates(c: char) { c == '/' || c == '\\' }

  /** A folder that stands for itself. */
  predicate Ordinary(folder: string) {
    folder != "" && folder != "." && folder != ".." && forall c | c in folder :: !Separates(c)
  }

  /** The path of a file in folders, outermost first. */
  function PathOf(folders: seq<string>, file: string, separator: char): string {
    if folders == [] then file else folders[0] + [separator] + PathOf(folders[1..], file, separator)
  }

  lemma {:induction false} PartsOf(folder: string, separator: char, rest: string)
    requires Separates(separator) && forall c | c in folder :: !Separates(c)
    ensures Parts(folder + [separator] + rest) == [folder] + Parts(rest)
  {
    var path := folder + [separator] + rest;
    if folder == "" {
      assert path[0] == separator && path[1..] == rest;
    } else {
      assert path[0] == folder[0] && path[1..] == folder[1..] + [separator] + rest;
      assert folder[0] in folder && forall c | c in folder[1..] :: c in folder;
      PartsOf(folder[1..], separator, rest);
      assert ([folder[1..]] + Parts(rest))[1..] == Parts(rest) && [folder[0]] + folder[1..] == folder;
    }
  }

  lemma {:induction false} PartsOfFile(file: string)
    requires forall c | c in file :: !Separates(c)
    ensures Parts(file) == [file]
  {
    if file != "" {
      assert file[0] in file && forall c | c in file[1..] :: c in file;
      PartsOfFile(file[1..]);
      assert [file[0]] + file[1..] == file;
    }
  }

  lemma {:induction false} PartsOfPath(folders: seq<string>, file: string, separator: char)
    requires Separates(separator) && forall c | c in file :: !Separates(c)
    requires forall f | f in folders :: forall c | c in f :: !Separates(c)
    ensures Parts(PathOf(folders, file, separator)) == folders + [file]
  {
    if folders == [] {
      PartsOfFile(file);
    } else {
      assert folders[0] in folders && forall f | f in folders[1..] :: f in folders;
      PartsOfPath(folders[1..], file, separator);
      PartsOf(folders[0], separator, PathOf(folders[1..], file, separator));
      assert folders + [file] == [folders[0]] + (folders[1..] + [file]);
    }
  }

  /** Going on from the folders of a first part of a path. */
  function Onward(stack: seq<string>, parts: seq<string>, rooted: bool): seq<string>
    decreases parts
  {
    if parts == [] then stack
    else
      var before, part := Onward(stack, parts[..|parts| - 1], rooted), parts[|parts| - 1];
      if part == "" || part == "." then before
      else if part == ".." && before != [] && before[|before| - 1] != ".." then before[..|before| - 1]
      else if part == ".." && before == [] && rooted then []
      else before + [part]
  }

  lemma {:induction false} CleanedOnward(a: seq<string>, b: seq<string>, rooted: bool)
    ensures Cleaned(a + b, rooted) == Onward(Cleaned(a, rooted), b, rooted)
    decreases |b|
  {
    if b == [] {
      assert a + b == a;
    } else {
      assert (a + b)[..|a + b| - 1] == a + b[..|b| - 1];
      CleanedOnward(a, b[..|b| - 1], rooted);
    }
  }

  /** Ordinary folders are the folders of a path. */
  lemma {:induction false} OrdinaryStay(folders: seq<string>, rooted: bool)
    requires forall f | f in folders :: Ordinary(f)
    ensures Cleaned(folders, rooted) == folders
  {
    if folders != [] {
      var last := |folders| - 1;
      assert folders == folders[..last] + [folders[last]] && folders[last] in folders;
      OrdinaryStay(folders[..last], rooted);
    }
  }

  /** An empty part or a dot anywhere in a path changes nothing. */
  lemma DotsVanish(a: seq<string>, dot: string, b: seq<string>, rooted: bool)
    requires dot == "" || dot == "."
    ensures Cleaned(a + [dot] + b, rooted) == Cleaned(a + b, rooted)
  {
    CleanedOnward(a + [dot], b, rooted);
    CleanedOnward(a, b, rooted);
    assert (a + [dot])[..|a|] == a;
  }

  /** Going up takes back the folder before it. */
  lemma UpTakesBack(a: seq<string>, folder: string, b: seq<string>, rooted: bool)
    requires Ordinary(folder)
    ensures Cleaned(a + [folder, ".."] + b, rooted) == Cleaned(a + b, rooted)
  {
    CleanedOnward(a + [folder, ".."], b, rooted);
    CleanedOnward(a, b, rooted);
    var clean := Cleaned(a, rooted);
    assert a + [folder, ".."] == a + [folder] + [".."];
    CleanedMore(a, folder, rooted);
    CleanedMore(a + [folder], "..", rooted);
    hide Cleaned, Onward, Ordinary;
    assert (clean + [folder])[..|clean|] == clean;
  }

  lemma CleanedMore(a: seq<string>, part: string, rooted: bool)
    ensures Ordinary(part) ==> Cleaned(a + [part], rooted) == Cleaned(a, rooted) + [part] && part != ".."
    ensures part == ".." && Cleaned(a, rooted) != [] && Cleaned(a, rooted)[|Cleaned(a, rooted)| - 1] != ".." ==>
              Cleaned(a + [part], rooted) == Cleaned(a, rooted)[..|Cleaned(a, rooted)| - 1]
  {
    assert (a + [part])[..|a|] == a;
  }

  /** From a root there is no way up, and elsewhere a leading way up stays. */
  lemma UpAtTheFront(b: seq<string>, rooted: bool)
    requires forall f | f in b :: Ordinary(f)
    ensures Cleaned([".."] + b, rooted) == if rooted then b else [".."] + b
  {
    CleanedOnward([".."], b, rooted);
    assert [".."][..0] == [];
    OnwardOrdinary(Cleaned([".."], rooted), b, rooted);
  }

  lemma {:induction false} OnwardOrdinary(stack: seq<string>, b: seq<string>, rooted: bool)
    requires forall f | f in b :: Ordinary(f)
    ensures Onward(stack, b, rooted) == stack + b
    decreases |b|
  {
    if b == [] {
      assert stack + b == stack;
    } else {
      var last := |b| - 1;
      assert b == b[..last] + [b[last]] && b[last] in b;
      OnwardOrdinary(stack, b[..last], rooted);
    }
  }

  /** The folders of a path whose parts stand for themselves, with either
      separator, from a root or not. */
  lemma FoldersReadBack(folders: seq<string>, file: string, separator: char)
    requires Separates(separator) && (forall f | f in folders :: Ordinary(f)) && forall c | c in file :: !Separates(c)
    ensures MemberFolders(PathOf(folders, file, separator)) == folders
    ensures MemberFolders([separator] + PathOf(folders, file, separator)) == folders
  {
    PartsOfPath(folders, file, separator);
    OrdinaryStay(folders, false);
    OrdinaryStay(folders, true);
    PartsOf("", separator, PathOf(folders, file, separator));
    hide Cleaned, PathOf, Parts;
    assert "" + [separator] + PathOf(folders, file, separator) == [separator] + PathOf(folders, file, separator);
    FoldersOfParts(PathOf(folders, file, separator), folders, file);
    FoldersOfParts([separator] + PathOf(folders, file, separator), [""] + folders, file);
    DotsVanish([], "", folders, true);
    assert [] + [""] + folders == [""] + folders && [] + folders == folders;
    assert folders != [] ==> folders[0] in folders;
  }

  lemma FoldersOfParts(path: string, folders: seq<string>, file: string)
    requires Parts(path) == folders + [file] || (folders != [] && Parts(path) == [folders[0]] + (folders[1..] + [file]))
    ensures MemberFolders(path) == Cleaned(folders, folders != [] && folders[0] == "")
  {
    hide Parts, Cleaned;
    assert folders != [] ==> [folders[0]] + (folders[1..] + [file]) == folders + [file];
    assert (folders + [file])[..|folders|] == folders;
  }

  // ---- prefixes ----------------------------------------------------------

  /** Folders as they stand before a name, each with a dash behind it. */
  function Tagged(folders: seq<string>): string {
    if folders == [] then "" else folders[0] + " - " + Tagged(folders[1..])
  }

  /** The last folders of a path, up to a number of them. */
  function LastOf(folders: seq<string>, count: nat): seq<string> {
    folders[if count < |folders| then |folders| - count else 0..]
  }

  lemma {:induction false} JoinTagged(folders: seq<string>)
    requires folders != []
    ensures Join(folders, " - ") + " - " == Tagged(folders)
  {
    if |folders| > 1 {
      JoinTagged(folders[1..]);
      assert folders[0] + " - " + Join(folders[1..], " - ") + " - " == folders[0] + " - " + (Join(folders[1..], " - ") + " - ");
    } else {
      assert Tagged(folders[1..]) == "";
      assert folders[0] + " - " + "" == folders[0] + " - ";
    }
  }

  lemma PrefixIsTagged(folders: seq<string>, count: nat)
    requires count > 0
    ensures Prefix(folders, count) == Tagged(LastOf(folders, count))
  {
    if folders != [] {
      JoinTagged(LastOf(folders, count));
    }
  }

  /** The prefixes at a number of folders all differ, ignoring case. */
  ghost predicate AllDiffer(group: seq<Member>, count: nat, lower: Case) {
    forall i, j | 0 <= i < j < |group| ::
      Low(Tagged(LastOf(MemberFolders(group[i].path), count)), lower) != Low(Tagged(LastOf(MemberFolders(group[j].path), count)), lower)
  }

  /** The prefixes of a group: the last folders of each path, at least one and
      as few as tell all of them apart, or all folders when no number does. */
  ghost predicate FewestFolders(group: seq<Member>, prefixes: seq<string>, count: nat, lower: Case) {
    && |prefixes| == |group| && count > 0
    && (forall i | 0 <= i < |group| :: prefixes[i] == Tagged(LastOf(MemberFolders(group[i].path), count)))
    && (AllDiffer(group, count, lower) || forall i | 0 <= i < |group| :: |MemberFolders(group[i].path)| <= count)
    && (forall fewer: nat | 0 < fewer < count :: !AllDiffer(group, fewer, lower))
  }

  lemma PrefixesOf(group: seq<Member>, lower: Case) returns (count: nat)
    ensures FewestFolders(group, Prefixes(FoldersOf(group), lower), count, lower)
  {
    var folders := FoldersOf(group);
    var used := PrefixesAreFewest(folders, 1, lower);
    hide MemberFolders, Low, Prefixes, Prefix, PrefixesFrom, Tagged, Depth;
    forall i | 0 <= i < |group| ensures |MemberFolders(group[i].path)| <= Depth(folders) {
      DepthFacts(folders, i);
    }
    count := if used == 0 then 1 else used;
    if used == 0 {
      NoFolders(folders);
    }
    forall c: nat | c > 0 ensures AllDiffer(group, c, lower) <==> Apart(PrefixesAt(folders, c), lower) {
      SamePrefixes(group, c, lower);
    }
    forall i | 0 <= i < |group| ensures PrefixesAt(folders, used)[i] == Tagged(LastOf(MemberFolders(group[i].path), count)) {
      PrefixIsTagged(folders[i], count);
      if used == 0 {
        NoFolderNoPrefix(folders[i]);
      }
    }
  }

  lemma NoFolderNoPrefix(folders: seq<string>)
    requires folders == []
    ensures Prefix(folders, 0) == Prefix(folders, 1)
  {
  }

  lemma NoFolders(folders: seq<seq<string>>)
    requires Depth(folders) == 0
    ensures forall i | 0 <= i < |folders| :: folders[i] == []
  {
    forall i | 0 <= i < |folders| ensures folders[i] == [] {
      DepthFacts(folders, i);
    }
  }

  lemma SamePrefixes(group: seq<Member>, count: nat, lower: Case)
    requires count > 0
    ensures AllDiffer(group, count, lower) <==> Apart(PrefixesAt(FoldersOf(group), count), lower)
  {
    hide MemberFolders, Low, Prefix, Tagged;
    var folders := FoldersOf(group);
    forall i | 0 <= i < |group| ensures PrefixesAt(folders, count)[i] == Tagged(LastOf(MemberFolders(group[i].path), count)) {
      PrefixIsTagged(folders[i], count);
    }
  }

  // ---- one group ---------------------------------------------------------

  /** The lower-cased names that are taken when member k of a group is named. */
  function TakenAt(taken: set<string>, names: seq<string>, k: nat, lower: Case): set<string>
    requires k <= |names|
  {
    taken + set i | 0 <= i < k :: Low(names[i], lower)
  }

  /** A member can be named after its folders: it has some, the name is free,
      and it is not longer than file systems allow. */
  predicate CanTakeFolders(m: Member, prefix: string, taken: set<string>, lower: Case) {
    prefix != "" && Low(prefix + m.name, lower) !in taken && Bytes(prefix + m.name) <= 255
  }

  /** The first free numbered name from two on. */
  ghost predicate FirstFree(name: string, given: string, taken: set<string>, lower: Case) {
    exists n: nat :: n >= 2 && given == Numbered(name, n) && Low(given, lower) !in taken
                     && forall i: nat | 2 <= i < n :: Low(Numbered(name, i), lower) in taken
  }

  /** The name of member k: its folders and its name when it can take them; for
      the first member that cannot, its bare name; for any further, a number. */
  ghost predicate NameRule(group: seq<Member>, prefixes: seq<string>, taken: set<string>, names: seq<string>, k: nat, lower: Case)
    requires |prefixes| == |group| && |names| <= |group| && k < |names|
  {
    if CanTakeFolders(group[k], prefixes[k], TakenAt(taken, names, k, lower), lower) then names[k] == prefixes[k] + group[k].name
    else if forall j | 0 <= j < k :: CanTakeFolders(group[j], prefixes[j], TakenAt(taken, names, j, lower), lower) then names[k] == group[k].name
    else FirstFree(group[k].name, names[k], TakenAt(taken, names, k, lower), lower)
  }

  ghost predicate Ruled(group: seq<Member>, prefixes: seq<string>, taken: set<string>, names: seq<string>, lower: Case)
    requires |prefixes| == |group| && |names| <= |group|
  {
    forall k | 0 <= k < |names| :: NameRule(group, prefixes, taken, names, k, lower)
  }

  ghost predicate SomeBare(group: seq<Member>, prefixes: seq<string>, taken: set<string>, names: seq<string>, lower: Case)
    requires |prefixes| == |group| && |names| <= |group|
  {
    exists j | 0 <= j < |names| :: !CanTakeFolders(group[j], prefixes[j], TakenAt(taken, names, j, lower), lower)
  }

  lemma OneMoreRuled(group: seq<Member>, prefixes: seq<string>, taken: set<string>, done: seq<string>, bareUsed: bool, lower: Case)
    requires DigitsStay(lower) && |prefixes| == |group| && |done| < |group| && Ruled(group, prefixes, taken, done, lower)
    requires bareUsed <==> SomeBare(group, prefixes, taken, done, lower)
    ensures var p := |done|;
            var before := TakenAt(taken, done, p, lower);
            var more := done + [NameFor(group[p], prefixes[p], before, bareUsed, lower)];
            && Ruled(group, prefixes, taken, more, lower)
            && TakenAt(taken, more, p + 1, lower) == before + {Low(more[p], lower)}
            && (SomeBare(group, prefixes, taken, more, lower) <==> bareUsed || FallsBack(group[p], prefixes[p], before, lower))
  {
    hide Low, Bytes, Numbered, DigitsStay;
    var p := |done|;
    var before := TakenAt(taken, done, p, lower);
    var more := done + [NameFor(group[p], prefixes[p], before, bareUsed, lower)];
    forall j: nat | j <= p ensures TakenAt(taken, more, j, lower) == TakenAt(taken, done, j, lower) {
      assert forall i | 0 <= i < j :: more[i] == done[i];
    }
    assert forall i | 0 <= i < p :: more[i] == done[i];
    assert FallsBack(group[p], prefixes[p], before, lower) <==> !CanTakeFolders(group[p], prefixes[p], before, lower);
    FreeNumberIsFree(group[p].name, 2, before, lower);
    hide TakenAt, CanTakeFolders, FreeNumber;
    forall k | 0 <= k < |more| ensures NameRule(group, prefixes, taken, more, k, lower) {
      assert k < p ==> NameRule(group, prefixes, taken, done, k, lower);
      if k == p && bareUsed && FallsBack(group[p], prefixes[p], before, lower) {
        assert FirstFree(group[p].name, more[p], before, lower);
      }
    }
    TakenNext(taken, more, p, lower);
  }

  lemma TakenNext(taken: set<string>, names: seq<string>, p: nat, lower: Case)
    requires p < |names|
    ensures TakenAt(taken, names, p + 1, lower) == TakenAt(taken, names, p, lower) + {Low(names[p], lower)}
  {
    hide Low;
    var a, b := TakenAt(taken, names, p + 1, lower), TakenAt(taken, names, p, lower) + {Low(names[p], lower)};
    forall x ensures x in a <==> x in b {
    }
  }

  /** Naming a group from some member on follows the rules, or stops at the first
      name that is too long. */
  lemma {:induction false} NamesFollow(group: seq<Member>, prefixes: seq<string>, taken: set<string>, done: seq<string>, bareUsed: bool, lower: Case)
      returns (names: seq<string>)
    requires DigitsStay(lower) && |prefixes| == |group| && |done| <= |group| && Ruled(group, prefixes, taken, done, lower)
    requires bareUsed <==> SomeBare(group, prefixes, taken, done, lower)
    requires forall k | 0 <= k < |done| :: Bytes(done[k]) <= 255
    ensures done <= names && |names| <= |group| && Ruled(group, prefixes, taken, names, lower)
    ensures var rest := NamesFrom(group[|done|..], prefixes[|done|..], TakenAt(taken, done, |done|, lower), bareUsed, lower);
            && (rest.Some? ==> names == done + rest.value && |names| == |group| && forall k | 0 <= k < |names| :: Bytes(names[k]) <= 255)
            && (rest.None? ==> |names| > |done| && Bytes(names[|names| - 1]) > 255)
    decreases |group| - |done|
  {
    hide Low, Bytes, Numbered, DigitsStay, NameRule, CanTakeFolders, TakenAt, NameFor, FallsBack;
    var p := |done|;
    if p == |group| {
      names := done;
      assert done + [] == done;
    } else {
      var before := TakenAt(taken, done, p, lower);
      var name := NameFor(group[p], prefixes[p], before, bareUsed, lower);
      var more := done + [name];
      OneMoreRuled(group, prefixes, taken, done, bareUsed, lower);
      assert group[p..][1..] == group[p + 1..] && prefixes[p..][1..] == prefixes[p + 1..];
      if Bytes(name) > 255 {
        names := more;
      } else {
        names := NamesFollow(group, prefixes, taken, more, bareUsed || FallsBack(group[p], prefixes[p], before, lower), lower);
        assert forall rest: seq<string> :: done + ([name] + rest) == more + rest;
      }
    }
  }

  /** The names of a group: a name of its own is left alone; otherwise every
      name follows the rules and fits, and the group is refused exactly when
      the rules lead to a name that does not. */
  lemma GroupRules(group: seq<Member>, taken: set<string>, lower: Case) returns (prefixes: seq<string>, count: nat, names: seq<string>)
    requires DigitsStay(lower)
    ensures |group| < 2 ==> GroupNames(group, taken, lower) == Some(names) && |names| == |group| && forall k | 0 <= k < |group| :: names[k] == group[k].name
    ensures |group| >= 2 ==>
              && FewestFolders(group, prefixes, count, lower) && |names| <= |group| && Ruled(group, prefixes, taken, names, lower)
              && (GroupNames(group, taken, lower).Some? ==>
                    GroupNames(group, taken, lower) == Some(names) && |names| == |group| && forall k | 0 <= k < |names| :: Bytes(names[k]) <= 255)
              && (GroupNames(group, taken, lower).None? ==> names != [] && Bytes(names[|names| - 1]) > 255)
  {
    prefixes, count, names := [], 0, [];
    if |group| < 2 {
      names := GroupNames(group, taken, lower).value;
    } else {
      hide Ruled, FewestFolders, Bytes, DigitsStay;
      prefixes, count, names := SharedNameRules(group, taken, lower);
    }
  }

  lemma SharedNameRules(group: seq<Member>, taken: set<string>, lower: Case) returns (prefixes: seq<string>, count: nat, names: seq<string>)
    requires DigitsStay(lower) && |group| >= 2
    ensures FewestFolders(group, prefixes, count, lower) && |names| <= |group| && Ruled(group, prefixes, taken, names, lower)
    ensures GroupNames(group, taken, lower).Some? ==>
              GroupNames(group, taken, lower) == Some(names) && |names| == |group| && forall k | 0 <= k < |names| :: Bytes(names[k]) <= 255
    ensures GroupNames(group, taken, lower).None? ==> names != [] && Bytes(names[|names| - 1]) > 255
  {
    hide NamesFrom, Prefixes, Bytes, DigitsStay, FewestFolders, NameRule;
    PrefixCount(FoldersOf(group), lower);
    prefixes := Prefixes(FoldersOf(group), lower);
    count := PrefixesOf(group, lower);
    NothingTaken(taken, lower);
    names := NamesFollow(group, prefixes, taken, [], false, lower);
    hide TakenAt, Ruled;
    assert group[0..] == group && prefixes[0..] == prefixes;
    var rest := NamesFrom(group, prefixes, taken, false, lower);
    assert rest.Some? ==> [] + rest.value == rest.value;
  }

  lemma NothingTaken(taken: set<string>, lower: Case)
    ensures TakenAt(taken, [], 0, lower) == taken
  {
  }

  /** At most one member of a group keeps its bare name by the rules: the first
      that cannot take its folders. */
  lemma OneKeepsItsName(group: seq<Member>, prefixes: seq<string>, taken: set<string>, names: seq<string>, k: nat, lower: Case)
    requires DigitsStay(lower) && |prefixes| == |group| && |names| <= |group| && Ruled(group, prefixes, taken, names, lower)
    requires k < |names| && names[k] == group[k].name && Low(group[k].name, lower) in taken
    ensures !CanTakeFolders(group[k], prefixes[k], TakenAt(taken, names, k, lower), lower)
    ensures forall j | 0 <= j < k :: CanTakeFolders(group[j], prefixes[j], TakenAt(taken, names, j, lower), lower)
  {
    hide Low, Bytes, Numbered, DigitsStay;
    assert NameRule(group, prefixes, taken, names, k, lower);
    assert prefixes[k] + group[k].name == group[k].name ==> prefixes[k] == "" by {
      assert |prefixes[k] + group[k].name| == |prefixes[k]| + |group[k].name|;
    }
  }

  // ---- the whole archive -------------------------------------------------

  /** The names given to groups that are named anew, among the first g. */
  ghost predicate GivenBefore(records: seq<seq<Member>>, names: seq<seq<string>>, g: nat, low: string, lower: Case)
    requires g <= |records| && |names| == |records|
  {
    exists h, k | 0 <= h < g && 0 <= k < |names[h]| :: |records[h]| >= 2 && Low(names[h][k], lower) == low
  }

  /** What is taken when group g is named: every original name, and the names
      given to groups before it. */
  ghost predicate TakenBefore(subtitles: seq<Member>, records: seq<seq<Member>>, names: seq<seq<string>>, g: nat, taken: set<string>, lower: Case)
    requires g <= |records| && |names| == |records|
  {
    forall low :: low in taken <==> (exists i | 0 <= i < |subtitles| :: Low(subtitles[i].name, lower) == low) || GivenBefore(records, names, g, low, lower)
  }

  /** How group g is named. */
  ghost predicate GroupRuled(subtitles: seq<Member>, records: seq<seq<Member>>, names: seq<seq<string>>, g: nat, lower: Case)
    requires g < |records| && |names| == |records|
  {
    && |names[g]| == |records[g]|
    && (|records[g]| < 2 ==> forall k | 0 <= k < |records[g]| :: names[g][k] == records[g][k].name)
    && (|records[g]| >= 2 ==> exists prefixes, count, taken ::
          && FewestFolders(records[g], prefixes, count, lower)
          && TakenBefore(subtitles, records, names, g, taken, lower)
          && Ruled(records[g], prefixes, taken, names[g], lower)
          && forall k | 0 <= k < |names[g]| :: Bytes(names[g][k]) <= 255)
  }

  lemma {:induction false} AllNamesFollow(subtitles: seq<Member>, records: seq<seq<Member>>, done: seq<seq<string>>, taken: set<string>, names: seq<seq<string>>, lower: Case)
    requires DigitsStay(lower) && |done| <= |records| && |names| == |records| && done <= names
    requires AllNames(records[|done|..], taken, lower) == Some(names[|done|..])
    requires TakenBefore(subtitles, records, names, |done|, taken, lower)
    ensures forall g | |done| <= g < |records| :: GroupRuled(subtitles, records, names, g, lower)
    decreases |records| - |done|
  {
    hide Low, Bytes, DigitsStay, GroupNames, Ruled, FewestFolders, Lows, TakenBefore;
    var p := |done|;
    if p < |records| {
      var group := records[p];
      assert records[p..][0] == group && records[p..][1..] == records[p + 1..];
      assert names[p..][0] == names[p] && names[p..][1..] == names[p + 1..];
      AllNamesHead(records[p..], taken, lower);
      var first := GroupNames(group, taken, lower);
      assert first == Some(names[p]) && AllNames(records[p + 1..], TakenAfter(group, names[p], taken, lower), lower) == Some(names[p + 1..]) by {
        var rest := AllNames(records[p + 1..], TakenAfter(group, first.value, taken, lower), lower);
        assert first.Some? && rest.Some? && names[p..] == [first.value] + rest.value;
        assert ([first.value] + rest.value)[1..] == rest.value;
      }
      var prefixes, count, given := GroupRules(group, taken, lower);
      assert GroupRuled(subtitles, records, names, p, lower);
      TakenGoesOn(subtitles, records, names, p, taken, lower);
      AllNamesFollow(subtitles, records, done + [names[p]], TakenAfter(group, names[p], taken, lower), names, lower);
    }
  }

  lemma TakenGoesOn(subtitles: seq<Member>, records: seq<seq<Member>>, names: seq<seq<string>>, p: nat, taken: set<string>, lower: Case)
    requires p < |records| && |names| == |records| && TakenBefore(subtitles, records, names, p, taken, lower)
    ensures TakenBefore(subtitles, records, names, p + 1, TakenAfter(records[p], names[p], taken, lower), lower)
  {
    hide Low;
    var after := TakenAfter(records[p], names[p], taken, lower);
    forall low ensures GivenBefore(records, names, p + 1, low, lower) <==>
                       GivenBefore(records, names, p, low, lower) || (|records[p]| >= 2 && exists k | 0 <= k < |names[p]| :: Low(names[p][k], lower) == low) {
    }
  }

  /** The whole naming: the files are the records of each name under their new
      names, the records of a name are its different texts in path order, and
      every name follows the rules, given what is taken before its group. */
  lemma NamesFollowTheRules(subtitles: seq<Member>, lower: Case)
    requires DigitsStay(lower) && Result(subtitles, lower).Some?
    ensures var records, names := AllRecords(Groups(subtitles, SortedKeys(subtitles, lower), lower)), ChosenNames(subtitles, lower);
            && names.Some? && |names.value| == |records|
            && (forall m :: m in Result(subtitles, lower).value <==> IsNamed(m, records, names.value))
            && (forall g | 0 <= g < |records| :: GroupRuled(subtitles, records, names.value, g, lower))
  {
    var keys := SortedKeys(subtitles, lower);
    var records, names := AllRecords(Groups(subtitles, keys, lower)), ChosenNames(subtitles, lower).value;
    hide Low, DigitsStay, AllNames, IsNamed, GroupRuled, SortedKeys, KeptOf, TakenBefore;
    ResultMembers(subtitles, lower);
    hide Result;
    NamesShaped(records, KeySet(keys), lower);
    OriginalsTaken(subtitles, records, names, lower);
    assert records[0..] == records && names[0..] == names;
    AllNamesFollow(subtitles, records, [], KeySet(keys), names, lower);
  }

  lemma OriginalsTaken(subtitles: seq<Member>, records: seq<seq<Member>>, names: seq<seq<string>>, lower: Case)
    requires |names| == |records|
    ensures TakenBefore(subtitles, records, names, 0, KeySet(SortedKeys(subtitles, lower)), lower)
  {
    hide Low, SortedKeys;
    SortedKeysFacts(subtitles, lower);
  }
}
