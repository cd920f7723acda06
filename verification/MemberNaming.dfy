/** What the naming of archive members guarantees: distinct names, one file per
    name and text, archive order, and no dependence on that order. */
module MemberNaming {
  import opened Text
  import Sorting
  import opened MemberNames

  // ---- distinct names ----------------------------------------------------

  /** Names that are the group's key in lower case, or not taken. */
  ghost predicate Fresh(names: seq<string>, key: string, taken: set<string>, lower: Case) {
    forall p | 0 <= p < |names| :: Low(names[p], lower) == key || Low(names[p], lower) !in taken
  }

  ghost predicate OffKey(names: seq<string>, key: string, lower: Case) {
    forall p | 0 <= p < |names| :: Low(names[p], lower) != key
  }

  ghost predicate OfKey(group: seq<Member>, key: string, lower: Case) {
    forall i | 0 <= i < |group| :: KeyOf(group[i], lower) == key
  }

  lemma {:induction false} NamesFromFacts(group: seq<Member>, prefixes: seq<string>, taken: set<string>, bareUsed: bool, key: string, lower: Case)
    requires DigitsStay(lower) && |prefixes| == |group| && OfKey(group, key, lower) && key in taken
    ensures var names := NamesFrom(group, prefixes, taken, bareUsed, lower);
            names.Some? ==> Fresh(names.value, key, taken, lower) && Apart(names.value, lower) && (bareUsed ==> OffKey(names.value, key, lower))
  {
    if group != [] {
      var name := NameFor(group[0], prefixes[0], taken, bareUsed, lower);
      var used := bareUsed || FallsBack(group[0], prefixes[0], taken, lower);
      var more := taken + {Low(name, lower)};
      assert KeyOf(group[0], lower) == key;
      FreeNumberIsFree(group[0].name, 2, taken, lower);
      hide Low, Numbered, FreeNumber, Bytes, DigitsStay;
      NamesFromFacts(group[1..], prefixes[1..], more, used, key, lower);
      var rest := NamesFrom(group[1..], prefixes[1..], more, used, lower);
      if rest.Some? {
        assert Low(name, lower) == key ==> used;
        HeadApart(name, rest.value, key, taken, used, lower);
      }
    }
  }

  lemma HeadApart(name: string, rest: seq<string>, key: string, taken: set<string>, used: bool, lower: Case)
    requires Fresh(rest, key, taken + {Low(name, lower)}, lower) && Apart(rest, lower)
    requires Low(name, lower) == key || Low(name, lower) !in taken
    requires Low(name, lower) == key ==> OffKey(rest, key, lower)
    ensures Fresh([name] + rest, key, taken, lower) && Apart([name] + rest, lower)
    ensures OffKey(rest, key, lower) && Low(name, lower) != key ==> OffKey([name] + rest, key, lower)
  {
    hide Low;
    var all := [name] + rest;
    assert all[0] == name && forall i | 0 <= i < |rest| :: all[i + 1] == rest[i];
    forall i, j | 0 <= i < j < |all| ensures Low(all[i], lower) != Low(all[j], lower) {
      assert all[j] == rest[j - 1];
      if i > 0 {
        assert all[i] == rest[i - 1];
      }
    }
  }

  lemma GroupNamesFacts(group: seq<Member>, taken: set<string>, key: string, lower: Case)
    requires DigitsStay(lower) && OfKey(group, key, lower) && key in taken
    ensures var names := GroupNames(group, taken, lower);
            names.Some? ==> && Fresh(names.value, key, taken, lower) && Apart(names.value, lower)
                            && |names.value| == |group| && (|group| < 2 ==> forall p | 0 <= p < |group| :: Low(names.value[p], lower) == key)
  {
    GroupNamesLength(group, taken, lower);
    if |group| < 2 {
      assert forall p | 0 <= p < |group| :: KeyOf(group[p], lower) == key;
    } else {
      PrefixCount(FoldersOf(group), lower);
      NamesFromFacts(group, Prefixes(FoldersOf(group), lower), taken, false, key, lower);
    }
  }

  ghost predicate AllFresh(names: seq<seq<string>>, keys: seq<string>, taken: set<string>, lower: Case) {
    |names| == |keys| && forall g | 0 <= g < |names| :: Fresh(names[g], keys[g], taken, lower)
  }

  /** No two names of different groups agree. */
  ghost predicate Across(a: seq<string>, b: seq<string>, lower: Case) {
    forall k, l | 0 <= k < |a| && 0 <= l < |b| :: Low(a[k], lower) != Low(b[l], lower)
  }

  ghost predicate AllApart(names: seq<seq<string>>, lower: Case) {
    (forall g | 0 <= g < |names| :: Apart(names[g], lower)) && forall g, h | 0 <= g < |names| && 0 <= h < |names| && g != h :: Across(names[g], names[h], lower)
  }

  lemma {:induction false} AllNamesFacts(groups: seq<seq<Member>>, keys: seq<string>, taken: set<string>, lower: Case)
    requires DigitsStay(lower) && |keys| == |groups| && (forall g | 0 <= g < |groups| :: OfKey(groups[g], keys[g], lower))
    requires (forall g | 0 <= g < |keys| :: keys[g] in taken) && forall g, h | 0 <= g < h < |keys| :: keys[g] != keys[h]
    ensures var names := AllNames(groups, taken, lower); names.Some? ==> AllFresh(names.value, keys, taken, lower) && AllApart(names.value, lower)
  {
    hide GroupNames, Low, DigitsStay, OfKey;
    if groups != [] {
      GroupNamesFacts(groups[0], taken, keys[0], lower);
      var first := GroupNames(groups[0], taken, lower);
      if first.Some? {
        var more := TakenAfter(groups[0], first.value, taken, lower);
        AllNamesFacts(groups[1..], keys[1..], more, lower);
        var rest := AllNames(groups[1..], more, lower);
        if rest.Some? {
          AllNamesStep(first.value, rest.value, |groups[0]| < 2, keys, taken, more, lower);
        }
      }
    }
  }

  lemma AllNamesStep(first: seq<string>, rest: seq<seq<string>>, alone: bool, keys: seq<string>, taken: set<string>, more: set<string>, lower: Case)
    requires |keys| == |rest| + 1 && (forall g | 0 <= g < |keys| :: keys[g] in taken) && forall g, h | 0 <= g < h < |keys| :: keys[g] != keys[h]
    requires Fresh(first, keys[0], taken, lower) && Apart(first, lower)
    requires alone ==> forall p | 0 <= p < |first| :: Low(first[p], lower) == keys[0]
    requires more == if alone then taken else taken + Lows(first, lower)
    requires AllFresh(rest, keys[1..], more, lower) && AllApart(rest, lower)
    ensures AllFresh([first] + rest, keys, taken, lower) && AllApart([first] + rest, lower)
  {
    hide Low, Apart, Fresh, Lows, Across;
    var all := [first] + rest;
    assert all[0] == first && forall g | 0 <= g < |rest| :: all[g + 1] == rest[g];
    forall g | 0 <= g < |rest| ensures Fresh(rest[g], keys[g + 1], taken, lower) && Across(first, rest[g], lower) {
      assert Fresh(rest[g], keys[1..][g], more, lower);
      FirstAcross(first, rest[g], alone, keys[0], keys[g + 1], taken, more, lower);
    }
    forall g | 0 <= g < |all| ensures Fresh(all[g], keys[g], taken, lower) {
      assert g > 0 ==> all[g] == rest[g - 1];
    }
    forall g | 0 <= g < |rest| ensures Across(rest[g], first, lower) {
      AcrossBack(first, rest[g], lower);
    }
    forall g, h | 0 <= g < |all| && 0 <= h < |all| && g != h ensures Across(all[g], all[h], lower) {
      assert g > 0 ==> all[g] == rest[g - 1];
      assert h > 0 ==> all[h] == rest[h - 1];
    }
  }

  lemma AcrossBack(a: seq<string>, b: seq<string>, lower: Case)
    requires Across(a, b, lower)
    ensures Across(b, a, lower)
  {
    hide Low;
  }

  lemma FirstAcross(first: seq<string>, other: seq<string>, alone: bool, key: string, otherKey: string, taken: set<string>, more: set<string>, lower: Case)
    requires key in taken && otherKey in taken && key != otherKey
    requires Fresh(first, key, taken, lower) && Fresh(other, otherKey, more, lower)
    requires alone ==> forall p | 0 <= p < |first| :: Low(first[p], lower) == key
    requires more == if alone then taken else taken + Lows(first, lower)
    ensures Fresh(other, otherKey, taken, lower) && Across(first, other, lower)
  {
    hide Low;
    forall k, l | 0 <= k < |first| && 0 <= l < |other| ensures Low(first[k], lower) != Low(other[l], lower) {
      assert Low(first[k], lower) in more;
    }
  }

  // ---- keys and groups ---------------------------------------------------

  ghost predicate NoRepeats<T>(xs: seq<T>) {
    forall i, j | 0 <= i < j < |xs| :: xs[i] != xs[j]
  }

  lemma {:induction false} KeysFacts(subtitles: seq<Member>, lower: Case)
    ensures NoRepeats(Keys(subtitles, lower))
    ensures forall key :: key in Keys(subtitles, lower) <==> exists i | 0 <= i < |subtitles| :: KeyOf(subtitles[i], lower) == key
  {
    hide Low;
    if subtitles != [] {
      var last := |subtitles| - 1;
      KeysFacts(subtitles[..last], lower);
      assert forall i | 0 <= i < last :: subtitles[..last][i] == subtitles[i];
      var before, key := Keys(subtitles[..last], lower), KeyOf(subtitles[last], lower);
      forall k ensures k in Keys(subtitles, lower) <==> exists i | 0 <= i < |subtitles| :: KeyOf(subtitles[i], lower) == k {
        if k in before {
          var i :| 0 <= i < last && KeyOf(subtitles[..last][i], lower) == k;
          assert KeyOf(subtitles[i], lower) == k;
        }
      }
    }
  }

  lemma {:induction false} CountOnce<T>(xs: seq<T>, x: T)
    requires NoRepeats(xs)
    ensures multiset(xs)[x] == if x in xs then 1 else 0
  {
    if xs != [] {
      assert xs == [xs[0]] + xs[1..];
      assert forall j | 0 <= j < |xs[1..]| :: xs[1..][j] == xs[j + 1];
      CountOnce(xs[1..], x);
      assert xs[0] !in xs[1..];
    }
  }

  lemma SameElements<T(!new)>(xs: seq<T>, ys: seq<T>)
    requires NoRepeats(xs) && NoRepeats(ys) && forall x :: x in xs <==> x in ys
    ensures multiset(xs) == multiset(ys)
  {
    forall x ensures multiset(xs)[x] == multiset(ys)[x] {
      CountOnce(xs, x);
      CountOnce(ys, x);
    }
  }

  lemma {:induction false} NoRepeatsByCount<T>(xs: seq<T>)
    requires forall x | x in xs :: multiset(xs)[x] <= 1
    ensures NoRepeats(xs)
  {
    forall i, j | 0 <= i < j < |xs| ensures xs[i] != xs[j] {
      assert xs == xs[..i] + [xs[i]] + xs[i + 1..j] + [xs[j]] + xs[j + 1..];
      assert xs[i] in xs;
    }
  }

  lemma SortedKeysFacts(subtitles: seq<Member>, lower: Case)
    ensures NoRepeats(SortedKeys(subtitles, lower))
    ensures forall key :: key in SortedKeys(subtitles, lower) <==> exists i | 0 <= i < |subtitles| :: KeyOf(subtitles[i], lower) == key
  {
    KeysFacts(subtitles, lower);
    var keys := Keys(subtitles, lower);
    Sorting.SortKeepsElements(keys, Strings());
    forall key | key in SortedKeys(subtitles, lower) ensures multiset(SortedKeys(subtitles, lower))[key] <= 1 {
      CountOnce(keys, key);
    }
    NoRepeatsByCount(SortedKeys(subtitles, lower));
  }

  lemma {:induction false} GroupOfFacts(entries: seq<Entry>, key: string, lower: Case)
    ensures forall e :: e in GroupOf(entries, key, lower) <==> e in entries && KeyOf(e.member, lower) == key
  {
    hide Low;
    if entries != [] {
      assert entries == [entries[0]] + entries[1..];
      GroupOfFacts(entries[1..], key, lower);
    }
  }

  /** Of each checksum the first entry is kept, and nothing else. */
  lemma {:induction false} FirstOfEachFacts(entries: seq<Entry>, seen: set<string>)
    ensures var kept := FirstOfEach(entries, seen);
            && (forall e | e in kept :: e in entries && e.member.sum !in seen)
            && (forall i, j | 0 <= i < j < |kept| :: kept[i].member.sum != kept[j].member.sum)
  {
    if entries != [] {
      assert entries == [entries[0]] + entries[1..];
      if entries[0].member.sum in seen {
        FirstOfEachFacts(entries[1..], seen);
      } else {
        var more := seen + {entries[0].member.sum};
        FirstOfEachFacts(entries[1..], more);
        var rest := FirstOfEach(entries[1..], more);
        assert forall j | 0 <= j < |rest| :: rest[j] in rest;
      }
    }
  }

  lemma {:induction false} FirstIsKept(entries: seq<Entry>, seen: set<string>, i: nat) returns (k: nat)
    requires i < |entries| && entries[i].member.sum !in seen
    ensures k <= i && entries[k] in FirstOfEach(entries, seen) && entries[k].member.sum == entries[i].member.sum
  {
    if entries[0].member.sum in seen {
      k := FirstIsKept(entries[1..], seen, i - 1);
      k := k + 1;
    } else if entries[0].member.sum == entries[i].member.sum {
      k := 0;
    } else {
      k := FirstIsKept(entries[1..], seen + {entries[0].member.sum}, i - 1);
      k := k + 1;
    }
  }

  lemma KeptFacts(subtitles: seq<Member>, key: string, lower: Case)
    ensures var kept := KeptOf(subtitles, key, lower);
            && (forall e | e in kept :: e.index < |subtitles| && e.member == subtitles[e.index] && KeyOf(e.member, lower) == key)
            && (forall i, j | 0 <= i < j < |kept| :: kept[i].member.sum != kept[j].member.sum)
  {
    hide Low;
    var group := GroupOf(Listed(subtitles), key, lower);
    GroupOfFacts(Listed(subtitles), key, lower);
    Sorting.SortKeepsElements(group, Entries());
    FirstOfEachFacts(Sorting.StableSort(group, Entries()), {});
  }

  /** Whatever shares the name and the text of a subtitle, one file keeps it:
      the first in path order. */
  lemma TextIsKept(subtitles: seq<Member>, i: nat, lower: Case) returns (e: Entry)
    requires i < |subtitles|
    ensures var kept := KeptOf(subtitles, KeyOf(subtitles[i], lower), lower);
            e in kept && e.member.sum == subtitles[i].sum && MemberLe(e.member, subtitles[i])
  {
    hide Low, MemberLe;
    var key := KeyOf(subtitles[i], lower);
    var group := GroupOf(Listed(subtitles), key, lower);
    GroupOfFacts(Listed(subtitles), key, lower);
    assert Listed(subtitles)[i] == Entry(i, subtitles[i]) && Listed(subtitles)[i] in group;
    e := FirstInOrder(group, Entry(i, subtitles[i]));
  }

  lemma FirstInOrder(group: seq<Entry>, x: Entry) returns (e: Entry)
    requires x in group
    ensures e in FirstOfEach(Sorting.StableSort(group, Entries()), {}) && e.member.sum == x.member.sum && MemberLe(e.member, x.member)
  {
    hide MemberLe, Sorting.StableSort, FirstOfEach, Sorting.TotalPreorder;
    var order := Sorting.StableSort(group, Entries());
    Sorting.SortKeepsElements(group, Entries());
    EntriesSorted(group);
    var j :| 0 <= j < |order| && order[j] == x;
    var k := FirstIsKept(order, {}, j);
    e := order[k];
    assert k < j ==> Entries()(order[k], order[j]);
    MemberLeReflexive(e.member);
  }

  lemma EntriesSorted(group: seq<Entry>)
    ensures Sorting.SortedBy(Sorting.StableSort(group, Entries()), Entries())
  {
    hide *;
    OrdersAreTotal();
    Sorting.SortIsSorted(group, Entries());
  }

  lemma MemberLeReflexive(m: Member)
    ensures MemberLe(m, m)
  {
    StringLeFacts(m.sum, m.sum, m.sum);
  }

  // ---- where the names go ------------------------------------------------

  /** Entries of all groups, no place in the archive twice. */
  ghost predicate PlacesApart(groups: seq<seq<Entry>>) {
    && (forall g | 0 <= g < |groups| :: OnePlaceEach(groups[g]))
    && (forall g, h | 0 <= g < |groups| && 0 <= h < |groups| && g != h :: Elsewhere(groups[g], groups[h]))
  }

  ghost predicate OnePlaceEach(entries: seq<Entry>) {
    forall k, l | 0 <= k < |entries| && 0 <= l < |entries| && entries[k].index == entries[l].index :: k == l
  }

  ghost predicate Elsewhere(a: seq<Entry>, b: seq<Entry>) {
    forall k, l | 0 <= k < |a| && 0 <= l < |b| :: a[k].index != b[l].index
  }

  lemma {:induction false} AssignGroupFrom(entries: seq<Entry>, names: seq<string>, i: nat) returns (k: nat)
    requires |entries| == |names| && i in AssignGroup(entries, names)
    ensures k < |entries| && entries[k].index == i && names[k] == AssignGroup(entries, names)[i]
  {
    k := |entries| - 1;
    if entries[k].index != i {
      k := AssignGroupFrom(entries[..k], names[..k], i);
    }
  }

  lemma {:induction false} AssignGroupTo(entries: seq<Entry>, names: seq<string>, k: nat)
    requires |entries| == |names| && k < |entries|
    ensures entries[k].index in AssignGroup(entries, names)
  {
    var last := |entries| - 1;
    if k < last {
      AssignGroupTo(entries[..last], names[..last], k);
    }
  }

  /** Each name that was given is some group's, for the entry in that place. */
  ghost predicate NamedFrom(groups: seq<seq<Entry>>, names: seq<seq<string>>, i: nat, name: string, g: nat, k: nat)
    requires Shaped(groups, names)
  {
    g < |groups| && k < |groups[g]| && groups[g][k].index == i && names[g][k] == name
  }

  lemma {:induction false} AssignedFrom(groups: seq<seq<Entry>>, names: seq<seq<string>>, i: nat) returns (g: nat, k: nat)
    requires Shaped(groups, names) && i in Assigned(groups, names)
    ensures NamedFrom(groups, names, i, Assigned(groups, names)[i], g, k)
  {
    var last := |groups| - 1;
    if i in AssignGroup(groups[last], names[last]) {
      g := last;
      k := AssignGroupFrom(groups[last], names[last], i);
    } else {
      g, k := AssignedFrom(groups[..last], names[..last], i);
    }
  }

  lemma {:induction false} AssignedTo(groups: seq<seq<Entry>>, names: seq<seq<string>>, g: nat, k: nat)
    requires Shaped(groups, names) && g < |groups| && k < |groups[g]|
    ensures groups[g][k].index in Assigned(groups, names)
  {
    var last := |groups| - 1;
    if g < last {
      AssignedTo(groups[..last], names[..last], g, k);
    } else {
      AssignGroupTo(groups[last], names[last], k);
    }
  }

  /** With no place twice, every entry gets the name its group chose. */
  lemma AssignedExactly(groups: seq<seq<Entry>>, names: seq<seq<string>>, g: nat, k: nat)
    requires Shaped(groups, names) && PlacesApart(groups) && g < |groups| && k < |groups[g]|
    ensures var final := Assigned(groups, names); groups[g][k].index in final && final[groups[g][k].index] == names[g][k]
  {
    AssignedTo(groups, names, g, k);
    var i := groups[g][k].index;
    hide Assigned;
    var h, l := AssignedFrom(groups, names, i);
    assert g != h ==> Elsewhere(groups[g], groups[h]);
    assert OnePlaceEach(groups[g]);
  }

  lemma GroupsApart(subtitles: seq<Member>, lower: Case)
    ensures var groups := Groups(subtitles, SortedKeys(subtitles, lower), lower);
            && PlacesApart(groups)
            && (forall g | 0 <= g < |groups| :: OfKey(Records(groups[g]), SortedKeys(subtitles, lower)[g], lower))
  {
    var keys := SortedKeys(subtitles, lower);
    var groups: seq<seq<Entry>> := Groups(subtitles, keys, lower);
    SortedKeysFacts(subtitles, lower);
    hide Low, KeptOf, SortedKeys;
    forall g | 0 <= g < |groups| ensures OnePlaceEach(groups[g]) && OfKey(Records(groups[g]), keys[g], lower) {
      KeptAt(subtitles, keys[g], lower);
    }
    forall g, h | 0 <= g < |groups| && 0 <= h < |groups| && g != h ensures Elsewhere(groups[g], groups[h]) {
      KeptAt(subtitles, keys[g], lower);
      KeptAt(subtitles, keys[h], lower);
      assert keys[g] != keys[h];
    }
  }

  lemma KeptAt(subtitles: seq<Member>, key: string, lower: Case)
    ensures var kept := KeptOf(subtitles, key, lower);
            && OnePlaceEach(kept)
            && forall k | 0 <= k < |kept| :: InPlace(kept[k], subtitles, key, lower)
  {
    KeptFacts(subtitles, key, lower);
    hide Low;
    var kept := KeptOf(subtitles, key, lower);
    assert forall k | 0 <= k < |kept| :: kept[k] in kept;
    hide KeptOf;
    forall k, l | 0 <= k < |kept| && 0 <= l < |kept| && kept[k].index == kept[l].index ensures k == l {
      assert kept[k].member == kept[l].member;
    }
  }

  ghost predicate InPlace(e: Entry, subtitles: seq<Member>, key: string, lower: Case) {
    e.index < |subtitles| && e.member == subtitles[e.index] && KeyOf(e.member, lower) == key
  }

  // ---- the result --------------------------------------------------------

  /** The result lists the named subtitles in archive order: positions ascend,
      and each is the subtitle there under its new name. */
  lemma {:induction false} PickedPositions(subtitles: seq<Member>, final: map<nat, string>) returns (at: seq<nat>)
    ensures |at| == |Picked(subtitles, final)|
    ensures forall a, b | 0 <= a < b < |at| :: at[a] < at[b]
    ensures forall a | 0 <= a < |at| :: at[a] < |subtitles| && at[a] in final && Picked(subtitles, final)[a] == subtitles[at[a]].(name := final[at[a]])
    ensures forall i: nat | i < |subtitles| && i in final :: i in at
  {
    if subtitles == [] {
      at := [];
    } else {
      var last: nat := |subtitles| - 1;
      at := PickedPositions(subtitles[..last], final);
      if last in final {
        at := at + [last];
      }
    }
  }

  /** The chosen names for the groups of an archive. */
  lemma Chosen(subtitles: seq<Member>, lower: Case) returns (groups: seq<seq<Entry>>, names: seq<seq<string>>)
    requires DigitsStay(lower) && Result(subtitles, lower).Some?
    ensures groups == Groups(subtitles, SortedKeys(subtitles, lower), lower) && ChosenNames(subtitles, lower) == Some(names)
    ensures Shaped(groups, names) && PlacesApart(groups) && AllApart(names, lower)
    ensures Result(subtitles, lower) == Some(Picked(subtitles, Assigned(groups, names)))
  {
    var keys := SortedKeys(subtitles, lower);
    groups := Groups(subtitles, keys, lower);
    names := ChosenNames(subtitles, lower).value;
    GroupsApart(subtitles, lower);
    SortedKeysFacts(subtitles, lower);
    NamesShaped(AllRecords(groups), KeySet(keys), lower);
    AllNamesFacts(AllRecords(groups), keys, KeySet(keys), lower);
  }

  lemma NamesTell(names: seq<seq<string>>, g: nat, k: nat, h: nat, l: nat, lower: Case)
    requires AllApart(names, lower) && g < |names| && k < |names[g]| && h < |names| && l < |names[h]|
    requires Low(names[g][k], lower) == Low(names[h][l], lower)
    ensures g == h && k == l
  {
    hide Low;
    assert g != h ==> Across(names[g], names[h], lower);
    assert Apart(names[g], lower);
  }

  /** All file names differ, ignoring case. */
  lemma NamesAreDistinct(subtitles: seq<Member>, lower: Case)
    requires DigitsStay(lower) && Result(subtitles, lower).Some?
    ensures var named := Result(subtitles, lower).value;
            forall a, b | 0 <= a < b < |named| :: Low(named[a].name, lower) != Low(named[b].name, lower)
  {
    var groups, names := Chosen(subtitles, lower);
    var final := Assigned(groups, names);
    hide Low, Result, ChosenNames, Groups, Assigned, AllApart;
    var at := PickedPositions(subtitles, final);
    var named := Picked(subtitles, final);
    forall a, b | 0 <= a < b < |named| ensures Low(named[a].name, lower) != Low(named[b].name, lower) {
      var g, k := AssignedFrom(groups, names, at[a]);
      var h, l := AssignedFrom(groups, names, at[b]);
      if Low(named[a].name, lower) == Low(named[b].name, lower) {
        NamesTell(names, g, k, h, l, lower);
      }
    }
  }

  predicate SameFile(a: Member, b: Member, lower: Case) { KeyOf(a, lower) == KeyOf(b, lower) && a.sum == b.sum }

  /** Some kept subtitle has the lower-cased name and checksum of one. */
  predicate HasFile(subtitles: seq<Member>, at: seq<nat>, i: nat, lower: Case)
    requires i < |subtitles| && forall a | 0 <= a < |at| :: at[a] < |subtitles|
  {
    exists a | 0 <= a < |at| :: SameFile(subtitles[at[a]], subtitles[i], lower)
  }

  /** The result keeps archive order and changes nothing but names; of the
      subtitles that share a lower-cased name and a checksum exactly one is in
      it. */
  lemma OneFilePerNameAndText(subtitles: seq<Member>, lower: Case) returns (at: seq<nat>)
    requires DigitsStay(lower) && Result(subtitles, lower).Some?
    ensures var named := Result(subtitles, lower).value;
            && |at| == |named| && (forall a, b | 0 <= a < b < |at| :: at[a] < at[b])
            && (forall a | 0 <= a < |at| :: at[a] < |subtitles| && named[a] == subtitles[at[a]].(name := named[a].name))
            && (forall i | 0 <= i < |subtitles| :: HasFile(subtitles, at, i, lower))
            && (forall a, b | 0 <= a < b < |at| :: !SameFile(subtitles[at[a]], subtitles[at[b]], lower))
  {
    var groups, names := Chosen(subtitles, lower);
    var final := Assigned(groups, names);
    at := PickedPositions(subtitles, final);
    hide Low, Result, ChosenNames, Assigned, SortedKeys, KeptOf, SameFile, Groups, Picked, Shaped, PlacesApart, AllApart;
    EveryTextHasAFile(subtitles, groups, names, at, lower);
    NoTextHasTwoFiles(subtitles, groups, names, at, lower);
  }

  lemma EveryTextHasAFile(subtitles: seq<Member>, groups: seq<seq<Entry>>, names: seq<seq<string>>, at: seq<nat>, lower: Case)
    requires groups == Groups(subtitles, SortedKeys(subtitles, lower), lower) && Shaped(groups, names)
    requires forall a | 0 <= a < |at| :: at[a] < |subtitles|
    requires forall i: nat | i < |subtitles| && i in Assigned(groups, names) :: i in at
    ensures forall i | 0 <= i < |subtitles| :: HasFile(subtitles, at, i, lower)
  {
    hide Low, Assigned, SortedKeys, KeptOf, SameFile, Groups;
    forall i | 0 <= i < |subtitles| ensures HasFile(subtitles, at, i, lower) {
      var j := FileOf(subtitles, groups, names, i, lower);
      var a :| 0 <= a < |at| && at[a] == j;
      assert SameFile(subtitles[at[a]], subtitles[i], lower);
    }
  }

  lemma NoTextHasTwoFiles(subtitles: seq<Member>, groups: seq<seq<Entry>>, names: seq<seq<string>>, at: seq<nat>, lower: Case)
    requires groups == Groups(subtitles, SortedKeys(subtitles, lower), lower) && Shaped(groups, names)
    requires forall a | 0 <= a < |at| :: at[a] < |subtitles| && at[a] in Assigned(groups, names)
    requires forall a, b | 0 <= a < b < |at| :: at[a] < at[b]
    ensures forall a, b | 0 <= a < b < |at| :: !SameFile(subtitles[at[a]], subtitles[at[b]], lower)
  {
    hide Low, Assigned, SortedKeys, KeptOf, SameFile, Groups;
    forall a, b | 0 <= a < b < |at| ensures !SameFile(subtitles[at[a]], subtitles[at[b]], lower) {
      FilesDiffer(subtitles, groups, names, at[a], at[b], lower);
    }
  }

  lemma FileOf(subtitles: seq<Member>, groups: seq<seq<Entry>>, names: seq<seq<string>>, i: nat, lower: Case) returns (j: nat)
    requires groups == Groups(subtitles, SortedKeys(subtitles, lower), lower) && Shaped(groups, names) && i < |subtitles|
    ensures j < |subtitles| && j in Assigned(groups, names) && SameFile(subtitles[j], subtitles[i], lower)
  {
    hide Low, Assigned, SortedKeys, KeptOf;
    var e := TextIsKept(subtitles, i, lower);
    KeptFacts(subtitles, KeyOf(subtitles[i], lower), lower);
    var g := KeyPlace(subtitles, i, lower);
    var k :| 0 <= k < |groups[g]| && groups[g][k] == e;
    AssignedTo(groups, names, g, k);
    j := e.index;
  }

  lemma KeyPlace(subtitles: seq<Member>, i: nat, lower: Case) returns (g: nat)
    requires i < |subtitles|
    ensures var keys := SortedKeys(subtitles, lower); g < |keys| && keys[g] == KeyOf(subtitles[i], lower)
  {
    hide Low, SortedKeys;
    SortedKeysFacts(subtitles, lower);
    var keys := SortedKeys(subtitles, lower);
    assert KeyOf(subtitles[i], lower) in keys;
    g :| g < |keys| && keys[g] == KeyOf(subtitles[i], lower);
  }

  lemma FilesDiffer(subtitles: seq<Member>, groups: seq<seq<Entry>>, names: seq<seq<string>>, i: nat, j: nat, lower: Case)
    requires groups == Groups(subtitles, SortedKeys(subtitles, lower), lower) && Shaped(groups, names) && i < j < |subtitles|
    requires i in Assigned(groups, names) && j in Assigned(groups, names)
    ensures !SameFile(subtitles[i], subtitles[j], lower)
  {
    var keys := SortedKeys(subtitles, lower);
    SortedKeysFacts(subtitles, lower);
    hide Low, Assigned, SortedKeys, KeptOf;
    var g, k := AssignedFrom(groups, names, i);
    var h, l := AssignedFrom(groups, names, j);
    KeptAt(subtitles, keys[g], lower);
    KeptAt(subtitles, keys[h], lower);
    KeptFacts(subtitles, keys[g], lower);
    assert InPlace(groups[g][k], subtitles, keys[g], lower) && InPlace(groups[h][l], subtitles, keys[h], lower);
    assert g != h ==> keys[g] != keys[h];
  }

  // ---- archive order does not matter -------------------------------------

  /** One path and one text belong to one record. */
  ghost predicate Faithful(subtitles: seq<Member>) {
    forall a, b | a in subtitles && b in subtitles && a.path == b.path && a.sum == b.sum :: a == b
  }

  function OfName(subtitles: seq<Member>, key: string, lower: Case): seq<Member> {
    if subtitles == [] then []
    else (if KeyOf(subtitles[0], lower) == key then [subtitles[0]] else []) + OfName(subtitles[1..], key, lower)
  }

  function FirstRecords(records: seq<Member>, seen: set<string>): seq<Member> {
    if records == [] then []
    else if records[0].sum in seen then FirstRecords(records[1..], seen)
    else [records[0]] + FirstRecords(records[1..], seen + {records[0].sum})
  }

  lemma {:induction false} FirstRecordsOf(entries: seq<Entry>, seen: set<string>)
    ensures Records(FirstOfEach(entries, seen)) == FirstRecords(Records(entries), seen)
  {
    if entries != [] {
      assert Records(entries)[1..] == Records(entries[1..]);
      if entries[0].member.sum in seen {
        FirstRecordsOf(entries[1..], seen);
      } else {
        var more := seen + {entries[0].member.sum};
        FirstRecordsOf(entries[1..], more);
        assert Records([entries[0]] + FirstOfEach(entries[1..], more)) == [entries[0].member] + Records(FirstOfEach(entries[1..], more));
      }
    }
  }

  lemma {:induction false} GroupRecords(entries: seq<Entry>, key: string, lower: Case)
    ensures Records(GroupOf(entries, key, lower)) == OfName(Records(entries), key, lower)
  {
    hide Low;
    if entries != [] {
      assert Records(entries)[1..] == Records(entries[1..]);
      GroupRecords(entries[1..], key, lower);
      var rest := GroupOf(entries[1..], key, lower);
      assert Records([entries[0]] + rest) == [entries[0].member] + Records(rest);
      assert [] + rest == rest && [] + Records(rest) == Records(rest);
    }
  }

  lemma {:induction false} OfNameSplit(a: seq<Member>, b: seq<Member>, key: string, lower: Case)
    ensures OfName(a + b, key, lower) == OfName(a, key, lower) + OfName(b, key, lower)
  {
    hide Low;
    if a == [] {
      assert a + b == b;
    } else {
      assert (a + b)[1..] == a[1..] + b;
      OfNameSplit(a[1..], b, key, lower);
    }
  }

  lemma {:induction false} OfNamePermutes(xs: seq<Member>, ys: seq<Member>, key: string, lower: Case)
    requires multiset(xs) == multiset(ys)
    ensures multiset(OfName(xs, key, lower)) == multiset(OfName(ys, key, lower))
  {
    hide Low, OfName;
    assert |xs| == |multiset(xs)| == |ys|;
    if xs == [] {
      assert xs == ys;
    } else {
      assert xs[0] in multiset(ys);
      var i :| 0 <= i < |ys| && ys[i] == xs[0];
      Sorting.TakeOut(xs, ys, i);
      OfNamePermutes(xs[1..], ys[..i] + ys[i + 1..], key, lower);
      OfNameHead(xs, key, lower);
      OfNameAround(ys, i, key, lower);
    }
  }

  lemma OfNameHead(xs: seq<Member>, key: string, lower: Case)
    requires xs != []
    ensures multiset(OfName(xs, key, lower)) == multiset(OfName([xs[0]], key, lower)) + multiset(OfName(xs[1..], key, lower))
  {
    hide Low, OfName;
    OfNameSplit([xs[0]], xs[1..], key, lower);
    assert [xs[0]] + xs[1..] == xs;
  }

  lemma OfNameAround(ys: seq<Member>, i: nat, key: string, lower: Case)
    requires i < |ys|
    ensures multiset(OfName(ys, key, lower)) == multiset(OfName([ys[i]], key, lower)) + multiset(OfName(ys[..i] + ys[i + 1..], key, lower))
  {
    hide Low, OfName;
    assert ys == ys[..i] + ([ys[i]] + ys[i + 1..]);
    OfNameSplit(ys[..i], [ys[i]] + ys[i + 1..], key, lower);
    OfNameSplit([ys[i]], ys[i + 1..], key, lower);
    OfNameSplit(ys[..i], ys[i + 1..], key, lower);
  }

  lemma {:induction false} RecordsPermute(a: seq<Entry>, b: seq<Entry>)
    requires multiset(a) == multiset(b)
    ensures multiset(Records(a)) == multiset(Records(b))
  {
    assert |a| == |multiset(a)| == |b|;
    if a == [] {
      assert Records(a) == [] && Records(b) == [];
    } else {
      assert a[0] in multiset(b);
      var i :| 0 <= i < |b| && b[i] == a[0];
      Sorting.TakeOut(a, b, i);
      RecordsPermute(a[1..], b[..i] + b[i + 1..]);
      assert Records(a) == [a[0].member] + Records(a[1..]);
      assert Records(b[..i] + b[i + 1..]) == Records(b[..i]) + Records(b[i + 1..]);
      assert Records(b) == Records(b[..i]) + ([b[i].member] + Records(b[i + 1..]));
    }
  }

  /** The records of a name in path order, whatever the archive order. */
  lemma SortedRecordsAgree(xs: seq<Member>, ys: seq<Member>, key: string, lower: Case)
    requires multiset(xs) == multiset(ys) && Faithful(xs)
    ensures Records(KeptOf(xs, key, lower)) == Records(KeptOf(ys, key, lower))
  {
    hide Low;
    var a := Sorting.StableSort(GroupOf(Listed(xs), key, lower), Entries());
    var b := Sorting.StableSort(GroupOf(Listed(ys), key, lower), Entries());
    RecordsInOrder(xs, key, lower);
    RecordsInOrder(ys, key, lower);
    OfNamePermutes(xs, ys, key, lower);
    FirstRecordsOf(a, {});
    FirstRecordsOf(b, {});
    NoTies(xs, Records(a), key, lower);
    OrdersAreTotal();
    hide GroupOf, Records, Faithful, OfName;
    Sorting.SortedUnique(Records(a), Records(b), Members());
  }

  lemma NoTies(xs: seq<Member>, records: seq<Member>, key: string, lower: Case)
    requires Faithful(xs) && multiset(records) == multiset(OfName(xs, key, lower))
    ensures forall x, y | x in records && y in records && Members()(x, y) && Members()(y, x) :: x == y
  {
    hide Low, OfName, StringLe;
    OfNameMembers(xs, key, lower);
    forall x, y | x in records && y in records && Members()(x, y) && Members()(y, x) ensures x == y {
      assert x in multiset(records) && y in multiset(records);
      StringLeFacts(x.path, y.path, x.path);
      StringLeFacts(x.sum, y.sum, x.sum);
    }
  }

  lemma {:induction false} OfNameMembers(xs: seq<Member>, key: string, lower: Case)
    ensures forall m | m in OfName(xs, key, lower) :: m in xs
    ensures forall m | m in multiset(OfName(xs, key, lower)) :: m in xs
  {
    hide Low;
    if xs != [] {
      assert xs == [xs[0]] + xs[1..];
      OfNameMembers(xs[1..], key, lower);
    }
  }

  lemma RecordsInOrder(xs: seq<Member>, key: string, lower: Case)
    ensures var sorted := Sorting.StableSort(GroupOf(Listed(xs), key, lower), Entries());
            multiset(Records(sorted)) == multiset(OfName(xs, key, lower)) && Sorting.SortedBy(Records(sorted), Members())
  {
    var group := GroupOf(Listed(xs), key, lower);
    var sorted := Sorting.StableSort(group, Entries());
    RecordsPermute(sorted, group);
    GroupRecords(Listed(xs), key, lower);
    assert Records(Listed(xs)) == xs;
    EntriesSorted(group);
    forall i, j | 0 <= i < j < |sorted| ensures Members()(Records(sorted)[i], Records(sorted)[j]) {
      assert Entries()(sorted[i], sorted[j]);
    }
  }

  lemma SortedKeysAgree(xs: seq<Member>, ys: seq<Member>, lower: Case)
    requires multiset(xs) == multiset(ys)
    ensures SortedKeys(xs, lower) == SortedKeys(ys, lower)
  {
    SortedKeysFacts(xs, lower);
    SortedKeysFacts(ys, lower);
    var a, b := SortedKeys(xs, lower), SortedKeys(ys, lower);
    forall key ensures key in a <==> key in b {
      if key in a {
        var i :| 0 <= i < |xs| && KeyOf(xs[i], lower) == key;
        assert xs[i] in multiset(ys);
        var j :| 0 <= j < |ys| && ys[j] == xs[i];
      }
      if key in b {
        var i :| 0 <= i < |ys| && KeyOf(ys[i], lower) == key;
        assert ys[i] in multiset(xs);
        var j :| 0 <= j < |xs| && xs[j] == ys[i];
      }
    }
    SameElements(a, b);
    OrdersAreTotal();
    Sorting.SortIsSorted(Keys(xs, lower), Strings());
    Sorting.SortIsSorted(Keys(ys, lower), Strings());
    forall x, y | Strings()(x, y) && Strings()(y, x) ensures x == y {
      StringLeFacts(x, y, x);
    }
    Sorting.SortedUnique(a, b, Strings());
  }

  lemma RecordGroupsAgree(xs: seq<Member>, ys: seq<Member>, lower: Case)
    requires multiset(xs) == multiset(ys) && Faithful(xs)
    ensures SortedKeys(xs, lower) == SortedKeys(ys, lower)
    ensures var keys := SortedKeys(xs, lower); AllRecords(Groups(xs, keys, lower)) == AllRecords(Groups(ys, keys, lower))
  {
    SortedKeysAgree(xs, ys, lower);
    hide KeptOf, SortedKeys;
    var keys := SortedKeys(xs, lower);
    forall g | 0 <= g < |keys| ensures AllRecords(Groups(xs, keys, lower))[g] == AllRecords(Groups(ys, keys, lower))[g] {
      SortedRecordsAgree(xs, ys, keys[g], lower);
    }
  }

  /** A file in the result is a record of some group under its chosen name. */
  ghost predicate IsNamed(m: Member, records: seq<seq<Member>>, names: seq<seq<string>>) {
    exists g: nat, k: nat :: g < |records| && g < |names| && k < |records[g]| && k < |names[g]| && m == records[g][k].(name := names[g][k])
  }

  lemma ResultMembers(subtitles: seq<Member>, lower: Case)
    requires DigitsStay(lower) && Result(subtitles, lower).Some?
    ensures var groups := Groups(subtitles, SortedKeys(subtitles, lower), lower);
            && ChosenNames(subtitles, lower).Some?
            && forall m :: m in Result(subtitles, lower).value <==> IsNamed(m, AllRecords(groups), ChosenNames(subtitles, lower).value)
  {
    var groups, names := Chosen(subtitles, lower);
    hide Result, ChosenNames, SortedKeys, Groups, PlacesApart, AllApart, Picked;
    forall m ensures m in Picked(subtitles, Assigned(groups, names)) <==> IsNamed(m, AllRecords(groups), names) {
      if m in Picked(subtitles, Assigned(groups, names)) {
        PickedIsNamed(subtitles, groups, names, m, lower);
      }
      if IsNamed(m, AllRecords(groups), names) {
        NamedIsPicked(subtitles, groups, names, m, lower);
      }
    }
  }

  lemma PickedIsNamed(subtitles: seq<Member>, groups: seq<seq<Entry>>, names: seq<seq<string>>, m: Member, lower: Case)
    requires groups == Groups(subtitles, SortedKeys(subtitles, lower), lower) && Shaped(groups, names)
    requires m in Picked(subtitles, Assigned(groups, names))
    ensures IsNamed(m, AllRecords(groups), names)
  {
    hide Assigned, SortedKeys, KeptOf, Low;
    var at := PickedPositions(subtitles, Assigned(groups, names));
    var named := Picked(subtitles, Assigned(groups, names));
    hide Picked;
    var a :| 0 <= a < |named| && named[a] == m;
    var g, k := AssignedFrom(groups, names, at[a]);
    KeptAt(subtitles, SortedKeys(subtitles, lower)[g], lower);
    assert InPlace(groups[g][k], subtitles, SortedKeys(subtitles, lower)[g], lower);
    assert m == AllRecords(groups)[g][k].(name := names[g][k]);
  }

  lemma NamedIsPicked(subtitles: seq<Member>, groups: seq<seq<Entry>>, names: seq<seq<string>>, m: Member, lower: Case)
    requires groups == Groups(subtitles, SortedKeys(subtitles, lower), lower) && Shaped(groups, names) && PlacesApart(groups)
    requires IsNamed(m, AllRecords(groups), names)
    ensures m in Picked(subtitles, Assigned(groups, names))
  {
    hide Assigned, SortedKeys, KeptOf, Low, PlacesApart;
    var at := PickedPositions(subtitles, Assigned(groups, names));
    var named := Picked(subtitles, Assigned(groups, names));
    hide Picked;
    var g: nat, k: nat :| g < |groups| && k < |groups[g]| && m == AllRecords(groups)[g][k].(name := names[g][k]);
    KeptAt(subtitles, SortedKeys(subtitles, lower)[g], lower);
    assert InPlace(groups[g][k], subtitles, SortedKeys(subtitles, lower)[g], lower);
    AssignedExactly(groups, names, g, k);
    var a :| 0 <= a < |at| && at[a] == groups[g][k].index;
    assert named[a] == m;
  }

  /** Naming does not depend on the order of the archive: any permutation is
      refused for the same reason or gives the same files. */
  lemma ArchiveOrderDoesNotMatter(xs: seq<Member>, ys: seq<Member>, lower: Case)
    requires DigitsStay(lower) && multiset(xs) == multiset(ys) && Faithful(xs)
    ensures Result(xs, lower).None? <==> Result(ys, lower).None?
    ensures Result(xs, lower).Some? ==> multiset(Result(xs, lower).value) == multiset(Result(ys, lower).value)
  {
    RecordGroupsAgree(xs, ys, lower);
    assert ChosenNames(xs, lower) == ChosenNames(ys, lower);
    if Result(xs, lower).Some? {
      ResultMembers(xs, lower);
      ResultMembers(ys, lower);
      NoFileTwice(xs, lower);
      NoFileTwice(ys, lower);
      hide Result, ChosenNames, SortedKeys, Groups, IsNamed;
      SameElements(Result(xs, lower).value, Result(ys, lower).value);
    }
  }

  lemma NoFileTwice(subtitles: seq<Member>, lower: Case)
    requires DigitsStay(lower) && Result(subtitles, lower).Some?
    ensures NoRepeats(Result(subtitles, lower).value)
  {
    NamesAreDistinct(subtitles, lower);
  }
}
