/** Merging the search results of one or several answers: results of the same
    identity become one candidate with the evidence of all
    (internal/provider/coordinator.go). */
module Deduplication {
  import opened Text

  datatype ExternalIDs = ExternalIDs(imdb: string, tmdb: int, tvdb: int)

  datatype PackInfo = PackInfo(scope: string, season: int, episodeFrom: int, episodeTo: int, directMembers: seq<string>)

  datatype Candidate = Candidate(
    providerID: string, resultID: string, language: string, kind: string, title: string, alternateTitles: seq<string>,
    evidenceVersion: string, year: int, season: int, episode: int, absoluteEpisode: int, externalIDs: ExternalIDs,
    releaseNames: seq<string>, releaseGroups: seq<string>, resolutions: seq<string>,
    exactHash: bool, forced: bool, hearingImpaired: bool, rating: real, popularity: real, downloadCount: int,
    downloadRef: string, downloadVersion: string, pack: Option<PackInfo>, releaseNumbered: bool)

  predicate Complete(c: Candidate) { c.providerID != "" && c.resultID != "" }

  function Key(c: Candidate): string { c.providerID + "\0" + c.resultID }

  /** Results that are merged: both identities complete, with the same key. */
  predicate Same(a: Candidate, b: Candidate) { Complete(a) && Complete(b) && Key(a) == Key(b) }

  // ---- merging two -------------------------------------------------------

  function FirstText(a: string, b: string): string { if a == "" then b else a }
  function FirstNumber(a: int, b: int): int { if a == 0 then b else a }
  function Larger(a: real, b: real): real { if a < b then b else a }

  /** The existing strings, and after them each new one once. */
  function AppendUnique(existing: seq<string>, additions: seq<string>): seq<string>
    decreases |additions|
  {
    if additions == [] then existing
    else if additions[0] == "" || additions[0] in existing then AppendUnique(existing, additions[1..])
    else AppendUnique(existing + [additions[0]], additions[1..])
  }

  function Merge(a: Candidate, b: Candidate): Candidate {
    Candidate(a.providerID, a.resultID, FirstText(a.language, b.language), FirstText(a.kind, b.kind), FirstText(a.title, b.title),
              AppendUnique(a.alternateTitles, b.alternateTitles), FirstText(a.evidenceVersion, b.evidenceVersion), FirstNumber(a.year, b.year),
              FirstNumber(a.season, b.season), FirstNumber(a.episode, b.episode), FirstNumber(a.absoluteEpisode, b.absoluteEpisode),
              ExternalIDs(FirstText(a.externalIDs.imdb, b.externalIDs.imdb), FirstNumber(a.externalIDs.tmdb, b.externalIDs.tmdb), FirstNumber(a.externalIDs.tvdb, b.externalIDs.tvdb)),
              AppendUnique(a.releaseNames, b.releaseNames), AppendUnique(a.releaseGroups, b.releaseGroups), AppendUnique(a.resolutions, b.resolutions),
              a.exactHash || b.exactHash, a.forced || b.forced, a.hearingImpaired || b.hearingImpaired,
              Larger(a.rating, b.rating), Larger(a.popularity, b.popularity), if a.downloadCount < b.downloadCount then b.downloadCount else a.downloadCount,
              FirstText(a.downloadRef, b.downloadRef), FirstText(a.downloadVersion, b.downloadVersion),
              if a.pack.None? then b.pack else a.pack, a.releaseNumbered)
  }

  // ---- merging a list ----------------------------------------------------

  /** Merges a candidate into the entry of its identity, or adds it. */
  function Add(entries: seq<Candidate>, c: Candidate): seq<Candidate> {
    if entries == [] then [c]
    else if Same(entries[0], c) then [Merge(entries[0], c)] + entries[1..]
    else [entries[0]] + Add(entries[1..], c)
  }

  function AddAll(entries: seq<Candidate>, more: seq<Candidate>): seq<Candidate>
    decreases |more|
  {
    if more == [] then entries else AddAll(Add(entries, more[0]), more[1..])
  }

  function Deduplicated(candidates: seq<Candidate>): seq<Candidate> { AddAll([], candidates) }

  ghost predicate Distinct(entries: seq<Candidate>) {
    forall i, j | 0 <= i < j < |entries| :: !Same(entries[i], entries[j])
  }

  method AppendUniqueStrings(existing: seq<string>, additions: seq<string>) returns (all: seq<string>)
    ensures all == AppendUnique(existing, additions)
  {
    var seen: set<string> := {};
    for i := 0 to |existing|
      invariant forall s :: s in seen <==> s in existing[..i]
    {
      seen := seen + {existing[i]};
    }
    all := existing;
    assert existing[..|existing|] == existing && additions[0..] == additions;
    for i := 0 to |additions|
      invariant forall s :: s in seen <==> s in all
      invariant AppendUnique(all, additions[i..]) == AppendUnique(existing, additions)
    {
      var value := additions[i];
      assert additions[i..][1..] == additions[i + 1..];
      if value == "" || value in seen {
        continue;
      }
      seen := seen + {value};
      all := all + [value];
    }
    assert additions[|additions|..] == [];
  }

  /** One pass with an index of the entries by key; an entry is merged field by
      field in its place. */
  method DeduplicateCandidates(candidates: seq<Candidate>) returns (result: seq<Candidate>)
    ensures result == Deduplicated(candidates)
  {
    hide Add, AddAll, Merge;
    result := [];
    var indices: map<string, nat> := map[];
    NothingAdded();
    for i := 0 to |candidates|
      invariant result == AddAll([], candidates[..i]) && Distinct(result)
      invariant forall key | key in indices :: indices[key] < |result| && Complete(result[indices[key]]) && Key(result[indices[key]]) == key
      invariant forall j | 0 <= j < |result| && Complete(result[j]) :: Key(result[j]) in indices && indices[Key(result[j])] == j
    {
      var candidate := candidates[i];
      AddLast([], candidates[..i], candidate);
      assert candidates[..i + 1] == candidates[..i] + [candidate];
      AddKeepsDistinct(result, candidate);
      if candidate.providerID == "" || candidate.resultID == "" {
        AddNew(result, candidate);
        result := result + [candidate];
        continue;
      }
      var key := candidate.providerID + "\0" + candidate.resultID;
      if key !in indices {
        AddNew(result, candidate);
        indices := indices[key := |result|];
        result := result + [candidate];
        continue;
      }
      var index := indices[key];
      var merged := MergeInto(result[index], candidate);
      MergeKeepsKey(result[index], candidate);
      AddAt(result, index, candidate);
      result := result[index := merged];
    }
    assert candidates[..|candidates|] == candidates;
  }

  lemma MergeKeepsKey(a: Candidate, b: Candidate)
    ensures Complete(Merge(a, b)) == Complete(a) && Key(Merge(a, b)) == Key(a)
  {
  }

  lemma NothingAdded()
    ensures AddAll([], []) == []
  {
  }

  method MergeInto(a: Candidate, b: Candidate) returns (merged: Candidate)
    ensures merged == Merge(a, b)
  {
    hide AppendUnique, FirstText, FirstNumber;
    var language, kind, title := MergeTexts(a.language, b.language, a.kind, b.kind, a.title, b.title);
    var year, season, episode, absoluteEpisode := MergeNumbers(a, b);
    var ids := MergeIDs(a.externalIDs, b.externalIDs);
    var names := AppendUniqueStrings(a.releaseNames, b.releaseNames);
    var titles := AppendUniqueStrings(a.alternateTitles, b.alternateTitles);
    var downloadVersion, evidenceVersion, downloadRef :=
      MergeTexts(a.downloadVersion, b.downloadVersion, a.evidenceVersion, b.evidenceVersion, a.downloadRef, b.downloadRef);
    var groups := AppendUniqueStrings(a.releaseGroups, b.releaseGroups);
    var resolutions := AppendUniqueStrings(a.resolutions, b.resolutions);
    var rating := if a.rating < b.rating then b.rating else a.rating;
    var popularity := if a.popularity < b.popularity then b.popularity else a.popularity;
    var downloads := if a.downloadCount < b.downloadCount then b.downloadCount else a.downloadCount;
    var pack := if a.pack.None? then b.pack else a.pack;
    merged := Candidate(a.providerID, a.resultID, language, kind, title, titles, evidenceVersion, year, season, episode, absoluteEpisode, ids,
                        names, groups, resolutions, a.exactHash || b.exactHash, a.forced || b.forced, a.hearingImpaired || b.hearingImpaired,
                        rating, popularity, downloads, downloadRef, downloadVersion, pack, a.releaseNumbered);
  }

  method MergeTexts(a: string, b: string, c: string, d: string, e: string, f: string) returns (x: string, y: string, z: string)
    ensures x == FirstText(a, b) && y == FirstText(c, d) && z == FirstText(e, f)
  {
    x, y, z := a, c, e;
    if x == "" {
      x := b;
    }
    if y == "" {
      y := d;
    }
    if z == "" {
      z := f;
    }
  }

  method MergeNumbers(a: Candidate, b: Candidate) returns (year: int, season: int, episode: int, absoluteEpisode: int)
    ensures year == FirstNumber(a.year, b.year) && season == FirstNumber(a.season, b.season)
    ensures episode == FirstNumber(a.episode, b.episode) && absoluteEpisode == FirstNumber(a.absoluteEpisode, b.absoluteEpisode)
  {
    year, season, episode, absoluteEpisode := a.year, a.season, a.episode, a.absoluteEpisode;
    if year == 0 {
      year := b.year;
    }
    if season == 0 {
      season := b.season;
    }
    if episode == 0 {
      episode := b.episode;
    }
    if absoluteEpisode == 0 {
      absoluteEpisode := b.absoluteEpisode;
    }
  }

  method MergeIDs(a: ExternalIDs, b: ExternalIDs) returns (ids: ExternalIDs)
    ensures ids == ExternalIDs(FirstText(a.imdb, b.imdb), FirstNumber(a.tmdb, b.tmdb), FirstNumber(a.tvdb, b.tvdb))
  {
    ids := a;
    if ids.imdb == "" {
      ids := ids.(imdb := b.imdb);
    }
    if ids.tmdb == 0 {
      ids := ids.(tmdb := b.tmdb);
    }
    if ids.tvdb == 0 {
      ids := ids.(tvdb := b.tvdb);
    }
  }

  // ---- lists of strings --------------------------------------------------

  lemma {:induction false} UniqueMembers(existing: seq<string>, additions: seq<string>)
    ensures forall s :: s in AppendUnique(existing, additions) <==> s in existing || (s in additions && s != "")
    ensures existing <= AppendUnique(existing, additions)
    decreases |additions|
  {
    if additions != [] {
      assert additions == [additions[0]] + additions[1..];
      if additions[0] == "" || additions[0] in existing {
        UniqueMembers(existing, additions[1..]);
      } else {
        UniqueMembers(existing + [additions[0]], additions[1..]);
      }
    }
  }

  lemma {:induction false} UniqueSplit(a: seq<string>, b: seq<string>, c: seq<string>)
    ensures AppendUnique(a, b + c) == AppendUnique(AppendUnique(a, b), c)
    decreases |b|
  {
    if b == [] {
      assert b + c == c;
    } else {
      assert (b + c)[1..] == b[1..] + c;
      if b[0] == "" || b[0] in a {
        UniqueSplit(a, b[1..], c);
      } else {
        UniqueSplit(a + [b[0]], b[1..], c);
      }
    }
  }

  /** Appending to a list first, or to what that list is appended to. */
  lemma {:induction false} UniqueAssociative(a: seq<string>, b: seq<string>, c: seq<string>)
    ensures AppendUnique(a, AppendUnique(b, c)) == AppendUnique(AppendUnique(a, b), c)
    decreases |c|
  {
    if c != [] {
      UniqueMembers(a, b);
      if c[0] == "" || c[0] in b {
        UniqueAssociative(a, b, c[1..]);
      } else {
        UniqueAssociative(a, b + [c[0]], c[1..]);
        UniqueSplit(a, b, [c[0]]);
        var ab := AppendUnique(a, b);
        assert [c[0]][1..] == [];
        assert AppendUnique(ab, [c[0]]) == if c[0] in ab then ab else ab + [c[0]];
      }
    }
  }

  lemma MergeAssociative(a: Candidate, b: Candidate, c: Candidate)
    ensures Merge(Merge(a, b), c) == Merge(a, Merge(b, c))
  {
    UniqueAssociative(a.alternateTitles, b.alternateTitles, c.alternateTitles);
    UniqueAssociative(a.releaseNames, b.releaseNames, c.releaseNames);
    UniqueAssociative(a.releaseGroups, b.releaseGroups, c.releaseGroups);
    UniqueAssociative(a.resolutions, b.resolutions, c.resolutions);
    hide AppendUnique;
  }

  // ---- adding ------------------------------------------------------------

  ghost predicate Absent(entries: seq<Candidate>, c: Candidate) {
    forall i | 0 <= i < |entries| :: !Same(entries[i], c)
  }

  lemma {:induction false} AddNew(entries: seq<Candidate>, c: Candidate)
    requires Absent(entries, c)
    ensures Add(entries, c) == entries + [c]
  {
    if entries != [] {
      AddNew(entries[1..], c);
    }
  }

  lemma {:induction false} AddAt(entries: seq<Candidate>, i: nat, c: Candidate)
    requires Distinct(entries) && i < |entries| && Same(entries[i], c)
    ensures Add(entries, c) == entries[i := Merge(entries[i], c)]
  {
    if i > 0 {
      assert !Same(entries[0], entries[i]);
      AddAt(entries[1..], i - 1, c);
    }
  }

  /** What adding leaves: the entries, one of them merged with the candidate, or
      the candidate after them. */
  lemma {:induction false} AddKeepsKeys(entries: seq<Candidate>, c: Candidate, x: Candidate)
    ensures Absent(Add(entries, c), x) <==> Absent(entries, x) && !Same(c, x)
  {
    var after := Add(entries, c);
    if entries == [] {
      assert after == [c];
      AbsentCons(c, [], x);
    } else {
      assert entries == [entries[0]] + entries[1..];
      MergeKeepsIdentity(entries[0], c);
      if Same(entries[0], c) {
        assert after[0] == Merge(entries[0], c) && after[1..] == entries[1..];
        AbsentCons(entries[0], entries[1..], x);
        AbsentCons(after[0], entries[1..], x);
      } else {
        AddKeepsKeys(entries[1..], c, x);
        AbsentCons(entries[0], entries[1..], x);
        AbsentCons(entries[0], Add(entries[1..], c), x);
      }
    }
  }

  lemma AbsentCons(head: Candidate, tail: seq<Candidate>, x: Candidate)
    ensures Absent([head] + tail, x) <==> !Same(head, x) && Absent(tail, x)
  {
    var all := [head] + tail;
    assert all[0] == head;
    assert forall i | 0 <= i < |tail| :: all[i + 1] == tail[i];
  }

  lemma {:induction false} AddKeepsDistinct(entries: seq<Candidate>, c: Candidate)
    requires Distinct(entries)
    ensures Distinct(Add(entries, c))
  {
    if entries != [] {
      var after := Add(entries, c);
      if Same(entries[0], c) {
        assert forall j | 0 < j < |entries| :: !Same(entries[0], entries[j]);
        assert after[1..] == entries[1..];
      } else {
        AddKeepsDistinct(entries[1..], c);
        AddKeepsKeys(entries[1..], c, entries[0]);
        assert after[1..] == Add(entries[1..], c);
        assert forall j | 0 < j < |entries| :: !Same(entries[0], entries[j]);
      }
    }
  }

  lemma {:induction false} AddLast(entries: seq<Candidate>, more: seq<Candidate>, c: Candidate)
    ensures AddAll(entries, more + [c]) == Add(AddAll(entries, more), c)
    decreases |more|
  {
    if more == [] {
      assert more + [c] == [c] && [c][1..] == [];
    } else {
      assert (more + [c])[1..] == more[1..] + [c];
      AddLast(Add(entries, more[0]), more[1..], c);
    }
  }

  lemma {:induction false} AddSplit(entries: seq<Candidate>, a: seq<Candidate>, b: seq<Candidate>)
    ensures AddAll(entries, a + b) == AddAll(AddAll(entries, a), b)
    decreases |a|
  {
    if a == [] {
      assert a + b == b;
    } else {
      assert (a + b)[1..] == a[1..] + b;
      AddSplit(Add(entries, a[0]), a[1..], b);
    }
  }

  lemma {:induction false} AllDistinct(entries: seq<Candidate>, more: seq<Candidate>)
    requires Distinct(entries)
    ensures Distinct(AddAll(entries, more))
    decreases |more|
  {
    if more != [] {
      AddKeepsDistinct(entries, more[0]);
      AllDistinct(Add(entries, more[0]), more[1..]);
    }
  }

  /** Two candidates of one identity may be merged before they are added. */
  lemma {:induction false} AddMerged(entries: seq<Candidate>, a: Candidate, b: Candidate)
    requires Same(a, b)
    ensures Add(Add(entries, a), b) == Add(entries, Merge(a, b))
  {
    if entries != [] {
      hide Merge;
      MergeKeepsIdentity(a, b);
      if Same(entries[0], a) {
        MergeKeepsIdentity(entries[0], a);
        MergeAssociative(entries[0], a, b);
      } else {
        AddMerged(entries[1..], a, b);
      }
    }
  }

  lemma MergeKeepsIdentity(a: Candidate, b: Candidate)
    ensures forall x :: (Same(Merge(a, b), x) <==> Same(a, x)) && (Same(x, Merge(a, b)) <==> Same(x, a))
  {
  }

  /** The order of adding does not matter for one that has an entry already. */
  lemma {:induction false} AddCommutes(entries: seq<Candidate>, a: Candidate, b: Candidate)
    requires !Same(a, b) && !Absent(entries, b)
    ensures Add(Add(entries, a), b) == Add(Add(entries, b), a)
  {
    hide Merge;
    AbsentCons(entries[0], entries[1..], b);
    assert entries == [entries[0]] + entries[1..];
    MergeKeepsIdentity(entries[0], a);
    MergeKeepsIdentity(entries[0], b);
    if !Same(entries[0], a) && !Same(entries[0], b) {
      AddCommutes(entries[1..], a, b);
    }
  }

  lemma {:induction false} AddPast(entries: seq<Candidate>, more: seq<Candidate>, c: Candidate)
    requires !Absent(entries, c) && Absent(more, c)
    ensures AddAll(Add(entries, c), more) == Add(AddAll(entries, more), c)
    decreases |more|
  {
    if more != [] {
      assert !Same(more[0], c);
      AddCommutes(entries, more[0], c);
      AddKeepsKeys(entries, more[0], c);
      assert more == [more[0]] + more[1..];
      AbsentCons(more[0], more[1..], c);
      AddPast(Add(entries, more[0]), more[1..], c);
    }
  }

  lemma {:induction false} AddInside(entries: seq<Candidate>, more: seq<Candidate>, c: Candidate)
    requires Distinct(more)
    ensures AddAll(entries, Add(more, c)) == Add(AddAll(entries, more), c)
    decreases |more|
  {
    if more == [] {
      assert [c][1..] == [];
    } else {
      var head, tail := more[0], more[1..];
      if Same(head, c) {
        var merged := [Merge(head, c)] + tail;
        assert merged[1..] == tail;
        AddMerged(entries, head, c);
        AddKeepsKeys(entries, head, c);
        assert forall j | 0 <= j < |tail| :: tail[j] == more[j + 1] && !Same(head, more[j + 1]);
        AddPast(Add(entries, head), tail, c);
      } else {
        var added := [head] + Add(tail, c);
        assert added[1..] == Add(tail, c);
        AddInside(Add(entries, head), tail, c);
      }
    }
  }

  /** Adding a list, or adding what is left of it once it is deduplicated. */
  lemma {:induction false} AddDeduplicated(entries: seq<Candidate>, more: seq<Candidate>)
    ensures AddAll(entries, Deduplicated(more)) == AddAll(entries, more)
    decreases |more|
  {
    if more != [] {
      var rest, c := more[..|more| - 1], more[|more| - 1];
      assert more == rest + [c];
      AddDeduplicated(entries, rest);
      AllDistinct([], rest);
      AddLast([], rest, c);
      AddLast(entries, rest, c);
      AddInside(entries, Deduplicated(rest), c);
    }
  }

  // ---- what it comes to --------------------------------------------------

  /** Deduplicating in pieces is deduplicating at once. */
  lemma DeduplicationIsAHomomorphism(a: seq<Candidate>, b: seq<Candidate>)
    ensures Deduplicated(a + b) == Deduplicated(Deduplicated(a) + Deduplicated(b))
  {
    hide Add, Same, Merge;
    AddSplit([], a, b);
    AddSplit([], Deduplicated(a), Deduplicated(b));
    AddDeduplicated([], a);
    AddDeduplicated(Deduplicated(a), b);
  }

  lemma DeduplicationIsIdempotent(a: seq<Candidate>)
    ensures Deduplicated(Deduplicated(a)) == Deduplicated(a)
  {
    AddDeduplicated([], a);
  }

  /** One provider id goes on with a NUL where the other ends. */
  predicate Confusable(p: string, q: string) { p + "\0" <= q || q + "\0" <= p }

  /** Candidates are the same when both have both ids and the ids joined by a
      NUL agree; those of providers that cannot be confused only if they share
      both ids. */
  lemma KeyTellsIdentity(a: Candidate, b: Candidate)
    ensures Same(a, b) <==>
              && a.providerID != "" && a.resultID != "" && b.providerID != "" && b.resultID != ""
              && a.providerID + "\0" + a.resultID == b.providerID + "\0" + b.resultID
    ensures Complete(a) <==> a.providerID != "" && a.resultID != ""
    ensures !Confusable(a.providerID, b.providerID) ==> (Key(a) == Key(b) <==> a.providerID == b.providerID && a.resultID == b.resultID)
  {
    if Key(a) == Key(b) {
      PartsTell(a.providerID, a.resultID, b.providerID, b.resultID);
    }
  }

  lemma PartsTell(p: string, r: string, q: string, s: string)
    requires p + "\0" + r == q + "\0" + s
    ensures Confusable(p, q) || (p == q && r == s)
  {
    var all := p + "\0" + r;
    assert all[..|p| + 1] == p + "\0" && all[..|q| + 1] == q + "\0";
    assert all[..|p|] == p && all[..|q|] == q;
    assert all[|p| + 1..] == r && all[|q| + 1..] == s;
  }

  /** Two providers have results with one key exactly if they can be confused. */
  lemma IdentitiesConfusedExactly(p: string, q: string)
    requires p != q
    ensures Confusable(p, q) <==> exists r, s :: r != "" && s != "" && p + "\0" + r == q + "\0" + s
  {
    if p + "\0" <= q {
      Collide(p, q);
    }
    if q + "\0" <= p {
      Collide(q, p);
    }
    forall r, s | p + "\0" + r == q + "\0" + s ensures Confusable(p, q) {
      PartsTell(p, r, q, s);
    }
  }

  lemma Collide(p: string, q: string)
    requires p + "\0" <= q
    ensures exists r, s :: r != "" && s != "" && p + "\0" + r == q + "\0" + s
  {
    var r, s := q[|p| + 1..] + "\0x", "x";
    assert q == p + "\0" + q[|p| + 1..];
    assert p + "\0" + r == q + "\0" + s;
  }

  lemma ConfusableHoldsNul(p: string, q: string)
    requires Confusable(p, q)
    ensures '\0' in p || '\0' in q
  {
    if p + "\0" <= q {
      assert (p + "\0")[|p|] == q[|p|];
    } else {
      assert (q + "\0")[|q|] == p[|q|];
    }
  }

  lemma NulConfusesIdentities(c: Candidate)
    ensures var a, b := c.(providerID := "p\0q", resultID := "r"), c.(providerID := "p", resultID := "q\0r");
            Same(a, b) && |Deduplicated([a, b])| == 1
  {
    var a, b := c.(providerID := "p\0q", resultID := "r"), c.(providerID := "p", resultID := "q\0r");
    assert Key(a) == "p\0q\0r" && Key(b) == "p\0q\0r";
    assert [a, b][1..] == [b] && [b][1..] == [];
    assert Add([], a) == [a];
    assert Add([a], b) == [Merge(a, b)];
    assert Deduplicated([a, b]) == AddAll([a], [b]) == AddAll([Merge(a, b)], []);
  }

  // ---- one entry per identity, in order of first appearance --------------

  function SameAs(candidates: seq<Candidate>, c: Candidate): seq<Candidate> {
    if candidates == [] then []
    else (if Same(candidates[0], c) then [candidates[0]] else []) + SameAs(candidates[1..], c)
  }

  function OtherThan(candidates: seq<Candidate>, c: Candidate): (r: seq<Candidate>)
    ensures |r| <= |candidates|
  {
    if candidates == [] then []
    else (if Same(candidates[0], c) then [] else [candidates[0]]) + OtherThan(candidates[1..], c)
  }

  /** All candidates of one identity, merged from the first on. */
  function Merged(group: seq<Candidate>): Candidate
    requires group != []
  {
    if |group| == 1 then group[0] else Merge(Merged(group[..|group| - 1]), group[|group| - 1])
  }

  /** Every candidate that is the first of its identity stands for all of its
      identity; those without an identity stand for themselves. */
  function Grouped(candidates: seq<Candidate>): seq<Candidate>
    decreases |candidates|
  {
    if candidates == [] then []
    else
      var c, rest := candidates[0], candidates[1..];
      if Complete(c) then [Merged([c] + SameAs(rest, c))] + Grouped(OtherThan(rest, c)) else [c] + Grouped(rest)
  }

  lemma {:induction false} GroupAppend(candidates: seq<Candidate>, x: Candidate, c: Candidate)
    ensures SameAs(candidates + [x], c) == SameAs(candidates, c) + if Same(x, c) then [x] else []
    ensures OtherThan(candidates + [x], c) == OtherThan(candidates, c) + if Same(x, c) then [] else [x]
  {
    if candidates == [] {
      assert candidates + [x] == [x] && [x][1..] == [];
    } else {
      assert (candidates + [x])[1..] == candidates[1..] + [x];
      GroupAppend(candidates[1..], x, c);
    }
  }

  lemma {:induction false} MergedKeepsIdentity(group: seq<Candidate>)
    requires group != []
    ensures Merged(group).providerID == group[0].providerID && Merged(group).resultID == group[0].resultID
  {
    if |group| > 1 {
      MergedKeepsIdentity(group[..|group| - 1]);
    }
  }

  lemma {:induction false} GroupedStep(candidates: seq<Candidate>, x: Candidate)
    ensures Grouped(candidates + [x]) == Add(Grouped(candidates), x)
    decreases |candidates|
  {
    var all := candidates + [x];
    if candidates == [] {
      assert all == [x] && all[1..] == [];
      assert [x] + [] == [x];
    } else {
      var c, rest := candidates[0], candidates[1..];
      assert all[0] == c && all[1..] == rest + [x];
      if Complete(c) {
        GroupAppend(rest, x, c);
        var group := [c] + SameAs(rest, c);
        MergedKeepsIdentity(group);
        MergeKeepsIdentity(Merged(group), x);
        if Same(x, c) {
          assert [c] + (SameAs(rest, c) + [x]) == group + [x];
          assert (group + [x])[..|group|] == group;
          assert OtherThan(rest, c) + [] == OtherThan(rest, c);
        } else {
          assert [c] + (SameAs(rest, c) + []) == group;
          GroupedStep(OtherThan(rest, c), x);
        }
      } else {
        GroupedStep(rest, x);
      }
    }
  }

  /** The one pass over the list gives exactly one entry for each identity, at
      its first appearance, merged from all its candidates in order. */
  lemma {:induction false} DeduplicationGroups(candidates: seq<Candidate>)
    ensures Deduplicated(candidates) == Grouped(candidates)
    ensures Distinct(Deduplicated(candidates))
  {
    AllDistinct([], candidates);
    if candidates != [] {
      var rest, c := candidates[..|candidates| - 1], candidates[|candidates| - 1];
      assert candidates == rest + [c];
      DeduplicationGroups(rest);
      AddLast([], rest, c);
      GroupedStep(rest, c);
    }
  }

  // ---- the fields of a merged entry --------------------------------------

  datatype TextField = Language | Kind | Title | EvidenceVersion | DownloadVersion | DownloadRef | IMDb
  datatype NumberField = Year | Season | Episode | AbsoluteEpisode | TMDB | TVDB
  datatype ListField = AlternateTitles | ReleaseNames | ReleaseGroups | Resolutions
  datatype FlagField = ExactHash | Forced | HearingImpaired
  datatype MeasureField = Rating | Popularity | DownloadCount

  function TextOf(c: Candidate, f: TextField): string {
    match f
    case Language => c.language
    case Kind => c.kind
    case Title => c.title
    case EvidenceVersion => c.evidenceVersion
    case DownloadVersion => c.downloadVersion
    case DownloadRef => c.downloadRef
    case IMDb => c.externalIDs.imdb
  }

  function NumberOf(c: Candidate, f: NumberField): int {
    match f
    case Year => c.year
    case Season => c.season
    case Episode => c.episode
    case AbsoluteEpisode => c.absoluteEpisode
    case TMDB => c.externalIDs.tmdb
    case TVDB => c.externalIDs.tvdb
  }

  function ListOf(c: Candidate, f: ListField): seq<string> {
    match f
    case AlternateTitles => c.alternateTitles
    case ReleaseNames => c.releaseNames
    case ReleaseGroups => c.releaseGroups
    case Resolutions => c.resolutions
  }

  function FlagOf(c: Candidate, f: FlagField): bool {
    match f
    case ExactHash => c.exactHash
    case Forced => c.forced
    case HearingImpaired => c.hearingImpaired
  }

  function MeasureOf(c: Candidate, f: MeasureField): real {
    match f
    case Rating => c.rating
    case Popularity => c.popularity
    case DownloadCount => c.downloadCount as real
  }

  lemma MergedFields(group: seq<Candidate>)
    requires |group| > 1
    ensures var rest, c := group[..|group| - 1], group[|group| - 1];
            var all, before := Merged(group), Merged(rest);
            && (forall f :: TextOf(all, f) == FirstText(TextOf(before, f), TextOf(c, f)))
            && (forall n :: NumberOf(all, n) == FirstNumber(NumberOf(before, n), NumberOf(c, n)))
            && (forall f :: FlagOf(all, f) == (FlagOf(before, f) || FlagOf(c, f)))
            && (forall m :: MeasureOf(all, m) == Larger(MeasureOf(before, m), MeasureOf(c, m)))
            && (forall l :: ListOf(all, l) == AppendUnique(ListOf(before, l), ListOf(c, l)))
  {
    hide AppendUnique;
  }

  function FirstTextOf(group: seq<Candidate>, f: TextField): string {
    if group == [] then "" else if TextOf(group[0], f) != "" then TextOf(group[0], f) else FirstTextOf(group[1..], f)
  }

  function FirstNumberOf(group: seq<Candidate>, n: NumberField): int {
    if group == [] then 0 else if NumberOf(group[0], n) != 0 then NumberOf(group[0], n) else FirstNumberOf(group[1..], n)
  }

  lemma {:induction false} FirstAppend(group: seq<Candidate>, c: Candidate, f: TextField, n: NumberField)
    ensures FirstTextOf(group + [c], f) == FirstText(FirstTextOf(group, f), TextOf(c, f))
    ensures FirstNumberOf(group + [c], n) == FirstNumber(FirstNumberOf(group, n), NumberOf(c, n))
  {
    hide TextOf, NumberOf;
    if group == [] {
      assert group + [c] == [c] && [c][1..] == [];
    } else {
      assert (group + [c])[1..] == group[1..] + [c];
      FirstAppend(group[1..], c, f, n);
    }
  }

  /** A text or number is that of the first candidate that has one. */
  lemma {:induction false} FirstValueWins(group: seq<Candidate>, f: TextField, n: NumberField)
    requires group != []
    ensures TextOf(Merged(group), f) == FirstTextOf(group, f)
    ensures NumberOf(Merged(group), n) == FirstNumberOf(group, n)
  {
    var last := |group| - 1;
    if last > 0 {
      MergedFields(group);
      hide Merged, TextOf, NumberOf;
      FirstValueWins(group[..last], f, n);
      FirstAppend(group[..last], group[last], f, n);
      assert group == group[..last] + [group[last]];
    } else {
      assert group[1..] == [];
    }
  }

  function FirstPackOf(group: seq<Candidate>): Option<PackInfo> {
    if group == [] then None else if group[0].pack != None then group[0].pack else FirstPackOf(group[1..])
  }

  lemma {:induction false} FirstPackAppend(group: seq<Candidate>, c: Candidate)
    ensures FirstPackOf(group + [c]) == if FirstPackOf(group) != None then FirstPackOf(group) else c.pack
  {
    if group == [] {
      assert group + [c] == [c] && [c][1..] == [];
    } else {
      assert (group + [c])[1..] == group[1..] + [c];
      FirstPackAppend(group[1..], c);
    }
  }

  /** The ids, and whether releases are numbered, are the first candidate's; the
      pack is that of the first candidate that has one. */
  lemma {:induction false} FirstIsKept(group: seq<Candidate>)
    requires group != []
    ensures var all := Merged(group);
            && all.providerID == group[0].providerID && all.resultID == group[0].resultID && all.releaseNumbered == group[0].releaseNumbered
            && all.pack == FirstPackOf(group)
  {
    var last := |group| - 1;
    if last > 0 {
      FirstIsKept(group[..last]);
      FirstPackAppend(group[..last], group[last]);
      hide AppendUnique, FirstPackOf;
      assert group == group[..last] + [group[last]];
    } else {
      assert group[1..] == [];
    }
  }

  /** A flag is set if any candidate sets it, and a measure is the largest. */
  lemma {:induction false} AnyFlagAndLargestMeasure(group: seq<Candidate>, f: FlagField, m: MeasureField)
    requires group != []
    ensures FlagOf(Merged(group), f) <==> exists i | 0 <= i < |group| :: FlagOf(group[i], f)
    ensures forall i | 0 <= i < |group| :: MeasureOf(group[i], m) <= MeasureOf(Merged(group), m)
    ensures exists i | 0 <= i < |group| :: MeasureOf(group[i], m) == MeasureOf(Merged(group), m)
  {
    var last := |group| - 1;
    if last > 0 {
      MergedFields(group);
      hide Merged, FlagOf, MeasureOf;
      var rest := group[..last];
      AnyFlagAndLargestMeasure(rest, f, m);
      assert forall i | 0 <= i < last :: rest[i] == group[i];
    }
  }

  function Concatenated(group: seq<Candidate>, f: ListField): seq<string> {
    if group == [] then [] else Concatenated(group[..|group| - 1], f) + ListOf(group[|group| - 1], f)
  }

  /** A list is the first candidate's own, and after it what the others add, in
      order and once each. */
  lemma {:induction false} ListsAreUnited(group: seq<Candidate>, f: ListField)
    requires group != []
    ensures ListOf(Merged(group), f) == AppendUnique(ListOf(group[0], f), Concatenated(group[1..], f))
  {
    var last := |group| - 1;
    if last == 0 {
      assert group[1..] == [];
    } else {
      var rest := group[..last];
      ListsAreUnited(rest, f);
      assert group[1..][..last - 1] == rest[1..];
      UniqueSplit(ListOf(group[0], f), Concatenated(rest[1..], f), ListOf(group[last], f));
      MergedFields(group);
    }
  }
}
