/** Title similarity: the two-row edit distance of internal/pack/select.go, with
    the cheapest edit script as its reference. */
module EditDistance {
  import opened Text

  function Min(a: nat, b: nat): nat { if a < b then a else b }

  /** One edit, working on the end of the strings. */
  datatype Edit = Keep(c: char) | Replace(x: char, y: char) | Insert(c: char) | Delete(c: char) {
    function Cost(): nat { if Keep? then 0 else 1 }
  }

  /** The string a script reads, and the one it writes. */
  function Reads(script: seq<Edit>): string {
    if script == [] then ""
    else
      Reads(script[..|script| - 1]) +
      match script[|script| - 1]
      case Keep(c) => [c]
      case Replace(x, _) => [x]
      case Insert(_) => []
      case Delete(c) => [c]
  }

  function Writes(script: seq<Edit>): string {
    if script == [] then ""
    else
      Writes(script[..|script| - 1]) +
      match script[|script| - 1]
      case Keep(c) => [c]
      case Replace(_, y) => [y]
      case Insert(c) => [c]
      case Delete(_) => []
  }

  function Cost(script: seq<Edit>): nat {
    if script == [] then 0 else Cost(script[..|script| - 1]) + script[|script| - 1].Cost()
  }

  /** The recursive edit distance of two strings. */
  function Distance(a: string, b: string): nat
    decreases |a| + |b|
  {
    if a == "" then |b|
    else if b == "" then |a|
    else
      var a', b' := a[..|a| - 1], b[..|b| - 1];
      Min(Min(Distance(a, b') + 1, Distance(a', b) + 1), Distance(a', b') + if a[|a| - 1] == b[|b| - 1] then 0 else 1)
  }

  /** 1 for two empty strings, and otherwise the share of the longer length that
      is not edited. */
  function Similarity(a: string, b: string): real {
    var longer := if |b| > |a| then |b| else |a|;
    if longer == 0 then 1.0 else 1.0 - Distance(a, b) as real / longer as real
  }

  /** A cell of the table from its three neighbours. */
  lemma Cell(a: string, b: string, i: nat, j: nat)
    requires i < |a| && j < |b|
    ensures Distance(a[..i + 1], b[..j + 1]) ==
            Min(Min(Distance(a[..i + 1], b[..j]) + 1, Distance(a[..i], b[..j + 1]) + 1), Distance(a[..i], b[..j]) + if a[i] != b[j] then 1 else 0)
  {
    assert a[..i + 1][..i] == a[..i] && b[..j + 1][..j] == b[..j];
  }

  lemma Edges(a: string)
    ensures Distance("", a) == |a| && Distance(a, "") == |a|
  {
  }

  /** The distance, one row of the table at a time. */
  method ComputeDistance(a: string, b: string) returns (d: nat)
    ensures d == Distance(a, b)
  {
    hide Distance;
    var previous := new nat[|b| + 1];
    for index := 0 to |b| + 1
      invariant forall j | 0 <= j < index :: previous[j] == j
    {
      previous[index] := index;
    }
    forall j | 0 <= j <= |b| ensures previous[j] == Distance(a[..0], b[..j]) {
      Edges(b[..j]);
      assert a[..0] == "";
    }
    for i := 0 to |a|
      invariant previous.Length == |b| + 1
      invariant forall j | 0 <= j <= |b| :: previous[j] == Distance(a[..i], b[..j])
    {
      previous := NextRow(a, b, i, previous);
    }
    assert a[..|a|] == a && b[..|b|] == b;
    d := previous[|b|];
  }

  method NextRow(a: string, b: string, i: nat, previous: array<nat>) returns (current: array<nat>)
    requires i < |a| && previous.Length == |b| + 1
    requires forall j | 0 <= j <= |b| :: previous[j] == Distance(a[..i], b[..j])
    ensures current.Length == |b| + 1
    ensures forall j | 0 <= j <= |b| :: current[j] == Distance(a[..i + 1], b[..j])
  {
    hide Distance;
    current := new nat[|b| + 1];
    current[0] := i + 1;
    assert b[..0] == "";
    Edges(a[..i + 1]);
    for j := 0 to |b|
      invariant forall k | 0 <= k <= |b| :: previous[k] == Distance(a[..i], b[..k])
      invariant forall k | 0 <= k <= j :: current[k] == Distance(a[..i + 1], b[..k])
    {
      var cost := if a[i] != b[j] then 1 else 0;
      Cell(a, b, i, j);
      current[j + 1] := Min(Min(current[j] + 1, previous[j + 1] + 1), previous[j] + cost);
    }
  }

  /** The similarity as it is computed. */
  method ComputeSimilarity(a: string, b: string) returns (s: real)
    ensures s == Similarity(a, b)
  {
    var maximum := |a|;
    if |b| > maximum {
      maximum := |b|;
    }
    if maximum == 0 {
      return 1.0;
    }
    var edits := ComputeDistance(a, b);
    s := 1.0 - edits as real / maximum as real;
  }

  // ---- the distance is that of the cheapest script -----------------------

  lemma Extended(script: seq<Edit>, e: Edit)
    ensures Cost(script + [e]) == Cost(script) + e.Cost()
    ensures Reads(script + [e]) == Reads(script) + match e case Keep(c) => [c] case Replace(x, _) => [x] case Insert(_) => [] case Delete(c) => [c]
    ensures Writes(script + [e]) == Writes(script) + match e case Keep(c) => [c] case Replace(_, y) => [y] case Insert(c) => [c] case Delete(_) => []
  {
    assert (script + [e])[..|script|] == script;
  }

  lemma Last(a: string)
    requires a != ""
    ensures a == a[..|a| - 1] + [a[|a| - 1]]
  {
  }

  /** Some script edits a into b at the cost of the distance. */
  lemma {:induction false} CheapestScript(a: string, b: string) returns (script: seq<Edit>)
    ensures Reads(script) == a && Writes(script) == b && Cost(script) == Distance(a, b)
    decreases |a| + |b|
  {
    if a == "" && b == "" {
      script := [];
    } else if a == "" || (b != "" && Distance(a, b) == Distance(a, b[..|b| - 1]) + 1) {
      var rest := CheapestScript(a, b[..|b| - 1]);
      hide Distance;
      script := rest + [Insert(b[|b| - 1])];
      Last(b);
      Extended(rest, Insert(b[|b| - 1]));
      assert a + [] == a;
    } else if b == "" || Distance(a, b) == Distance(a[..|a| - 1], b) + 1 {
      var rest := CheapestScript(a[..|a| - 1], b);
      hide Distance;
      script := rest + [Delete(a[|a| - 1])];
      Last(a);
      Extended(rest, Delete(a[|a| - 1]));
      assert b + [] == b;
    } else {
      var x, y := a[|a| - 1], b[|b| - 1];
      var rest := CheapestScript(a[..|a| - 1], b[..|b| - 1]);
      var e := if x == y then Keep(x) else Replace(x, y);
      assert Distance(a, b) == Distance(a[..|a| - 1], b[..|b| - 1]) + e.Cost();
      hide Distance;
      script := rest + [e];
      Last(a);
      Last(b);
      Extended(rest, e);
    }
  }

  /** No script edits one string into another for less than their distance. */
  lemma {:induction false} NoCheaperScript(script: seq<Edit>)
    ensures Distance(Reads(script), Writes(script)) <= Cost(script)
  {
    if script != [] {
      var rest := script[..|script| - 1];
      NoCheaperScript(rest);
      var a, b := Reads(rest), Writes(rest);
      assert a + "" == a && b + "" == b;
      match script[|script| - 1]
      case Insert(c) => GrowRight(a, b, c);
      case Delete(c) => GrowLeft(a, b, c);
      case Keep(c) => GrowBoth(a, b, c, c);
      case Replace(x, y) => GrowBoth(a, b, x, y);
    }
  }

  lemma GrowRight(a: string, b: string, c: char)
    ensures Distance(a, b + [c]) <= Distance(a, b) + 1
  {
    assert (b + [c])[..|b|] == b;
  }

  lemma GrowLeft(a: string, b: string, c: char)
    ensures Distance(a + [c], b) <= Distance(a, b) + 1
  {
    assert (a + [c])[..|a|] == a;
  }

  lemma GrowBoth(a: string, b: string, x: char, y: char)
    ensures Distance(a + [x], b + [y]) <= Distance(a, b) + if x == y then 0 else 1
  {
    assert (a + [x])[..|a|] == a && (b + [y])[..|b|] == b;
  }

  // ---- it is a metric, bounded by the longer length ----------------------

  /** A script read backwards: what it writes becomes what it reads. */
  function Reverted(script: seq<Edit>): seq<Edit> {
    if script == [] then []
    else
      Reverted(script[..|script| - 1]) +
      match script[|script| - 1]
      case Keep(c) => [Keep(c)]
      case Replace(x, y) => [Replace(y, x)]
      case Insert(c) => [Delete(c)]
      case Delete(c) => [Insert(c)]
  }

  lemma {:induction false} RevertedFacts(script: seq<Edit>)
    ensures Reads(Reverted(script)) == Writes(script) && Writes(Reverted(script)) == Reads(script) && Cost(Reverted(script)) == Cost(script)
  {
    if script != [] {
      var rest := script[..|script| - 1];
      RevertedFacts(rest);
      match script[|script| - 1]
      case Keep(c) => Extended(Reverted(rest), Keep(c));
      case Replace(x, y) => Extended(Reverted(rest), Replace(y, x));
      case Insert(c) => Extended(Reverted(rest), Delete(c));
      case Delete(c) => Extended(Reverted(rest), Insert(c));
    }
  }

  lemma {:induction false} AtMost(a: string, b: string)
    ensures Distance(b, a) <= Distance(a, b)
  {
    var script := CheapestScript(a, b);
    RevertedFacts(script);
    NoCheaperScript(Reverted(script));
  }

  lemma DistanceIsSymmetric(a: string, b: string)
    ensures Distance(a, b) == Distance(b, a)
  {
    AtMost(a, b);
    AtMost(b, a);
  }

  lemma {:induction false} DistanceIsBounded(a: string, b: string)
    ensures Distance(a, b) <= if |b| > |a| then |b| else |a|
    decreases |a|
  {
    if a != "" && b != "" {
      DistanceIsBounded(a[..|a| - 1], b[..|b| - 1]);
    }
  }

  lemma {:induction false} ZeroMeansEqual(a: string, b: string)
    ensures Distance(a, b) == 0 <==> a == b
    decreases |a|
  {
    if a != "" && b != "" {
      ZeroMeansEqual(a[..|a| - 1], b[..|b| - 1]);
      Last(a);
      Last(b);
    }
  }

  /** Doing one script after another as a single one. */
  lemma {:induction false} Chained(s: seq<Edit>, t: seq<Edit>) returns (r: seq<Edit>)
    requires Writes(s) == Reads(t)
    ensures Reads(r) == Reads(s) && Writes(r) == Writes(t) && Cost(r) <= Cost(s) + Cost(t)
    decreases |s| + |t|
  {
    if s == [] && t == [] {
      r := [];
    } else if s != [] && s[|s| - 1].Delete? {
      var rest := Chained(s[..|s| - 1], t);
      Extended(rest, s[|s| - 1]);
      r := rest + [s[|s| - 1]];
    } else if t != [] && t[|t| - 1].Insert? {
      var rest := Chained(s, t[..|t| - 1]);
      Extended(rest, t[|t| - 1]);
      r := rest + [t[|t| - 1]];
    } else {
      r := ChainedEnds(s, t);
    }
  }

  lemma {:induction false} ChainedEnds(s: seq<Edit>, t: seq<Edit>) returns (r: seq<Edit>)
    requires Writes(s) == Reads(t) && (s != [] || t != [])
    requires s != [] ==> !s[|s| - 1].Delete?
    requires t != [] ==> !t[|t| - 1].Insert?
    ensures Reads(r) == Reads(s) && Writes(r) == Writes(t) && Cost(r) <= Cost(s) + Cost(t)
    decreases |s| + |t|, 0
  {
    assert s != [] ==> Writes(s) != "";
    assert t != [] ==> Reads(t) != "";
    var d, e := s[|s| - 1], t[|t| - 1];
    var middle := Writes(s);
    var c := if d.Replace? then d.y else d.c;
    assert middle[..|middle| - 1] == Writes(s[..|s| - 1]) == Reads(t[..|t| - 1]) && middle[|middle| - 1] == c;
    assert c == if e.Replace? then e.x else e.c;
    var rest := Chained(s[..|s| - 1], t[..|t| - 1]);
    if d.Insert? && e.Delete? {
      r := rest;
    } else {
      var both :=
        if d.Insert? then Insert(if e.Replace? then e.y else c)
        else if e.Delete? then Delete(if d.Replace? then d.x else c)
        else if d.Keep? && e.Keep? then Keep(c)
        else Replace(if d.Replace? then d.x else c, if e.Replace? then e.y else c);
      Extended(rest, both);
      r := rest + [both];
    }
  }

  lemma TriangleInequality(a: string, b: string, c: string)
    ensures Distance(a, c) <= Distance(a, b) + Distance(b, c)
  {
    var s := CheapestScript(a, b);
    var t := CheapestScript(b, c);
    var r := Chained(s, t);
    NoCheaperScript(r);
  }

  // ---- similarity --------------------------------------------------------

  /** Similarity is symmetric, lies between 0 and 1, and is 1 for equal titles
      only. */
  lemma SimilarityFacts(a: string, b: string)
    ensures 0.0 <= Similarity(a, b) <= 1.0
    ensures Similarity(a, b) == Similarity(b, a)
    ensures Similarity(a, b) == 1.0 <==> a == b
  {
    DistanceIsBounded(a, b);
    DistanceIsSymmetric(a, b);
    ZeroMeansEqual(a, b);
    var longer := if |b| > |a| then |b| else |a|;
    if longer > 0 {
      Share(Distance(a, b), longer);
    }
  }

  lemma Share(d: nat, longer: nat)
    requires d <= longer && longer > 0
    ensures 0.0 <= d as real / longer as real <= 1.0
    ensures d as real / longer as real == 0.0 <==> d == 0
  {
    var q := d as real / longer as real;
    assert q * longer as real == d as real;
  }

  /** The threshold of the episode-title rule, 0.98, forgives one edit for every
      fifty characters of the longer title, and none in shorter titles. */
  lemma TitleThreshold(a: string, b: string)
    ensures var longer := if |b| > |a| then |b| else |a|;
            && (longer > 0 ==> (Similarity(a, b) >= 0.98 <==> 50 * Distance(a, b) <= longer))
            && (longer < 50 ==> (Similarity(a, b) >= 0.98 <==> a == b))
  {
    var longer := if |b| > |a| then |b| else |a|;
    ZeroMeansEqual(a, b);
    if longer > 0 {
      hide Distance;
      Threshold(Distance(a, b), longer);
    }
  }

  lemma Threshold(d: nat, longer: nat)
    requires longer > 0
    ensures 1.0 - d as real / longer as real >= 0.98 <==> 50 * d <= longer
  {
    ShareAtMost(d as real, longer as real);
    var q := d as real / longer as real;
    assert 50.0 * d as real <= longer as real <==> 50 * d <= longer;
    assert 1.0 - q >= 0.98 <==> q <= 0.02;
  }

  lemma ShareAtMost(d: real, n: real)
    requires n > 0.0
    ensures d / n <= 0.02 <==> 50.0 * d <= n
  {
    Undivided(d, n);
    Scaled(d / n, 0.02, n);
  }

  lemma Undivided(x: real, n: real)
    requires n > 0.0
    ensures x / n * n == x
  {
  }

  lemma Scaled(q: real, r: real, n: real)
    requires n > 0.0
    ensures q <= r <==> q * n <= r * n
  {
  }
}
