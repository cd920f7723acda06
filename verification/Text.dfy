/** The string operations that the subtitle rewriter relies on, spelled out on
    characters: trimming, searching, counting, and decimal formatting. */
module Text {

  datatype Option<+T> = None | Some(value: T)

  /** Unicode white space, as Go's unicode.IsSpace decides it. */
  predicate IsSpace(c: char) {
    c in "\t\n\r " || c == '\U{0B}' || c == '\U{0C}' || c == '\U{85}' || c == '\U{A0}' || c == '\U{1680}' ||
    '\U{2000}' <= c <= '\U{200A}' || c in "\U{2028}\U{2029}\U{202F}\U{205F}\U{3000}"
  }

  function TrimLeft(s: string): string {
    if s != "" && IsSpace(s[0]) then TrimLeft(s[1..]) else s
  }

  function TrimRight(s: string): string {
    if s != "" && IsSpace(s[|s| - 1]) then TrimRight(s[..|s| - 1]) else s
  }

  function TrimSpace(s: string): string { TrimRight(TrimLeft(s)) }

  /** A line that is empty once trimmed. */
  predicate Blank(s: string) { TrimSpace(s) == "" }

  predicate Contains(s: string, p: string) {
    p <= s || (s != "" && Contains(s[1..], p))
  }

  /** Non-overlapping occurrences of p, as strings.Count finds them. */
  function Count(s: string, p: string): nat
    requires p != ""
  {
    if s == "" then 0
    else if p <= s then 1 + Count(s[|p|..], p)
    else Count(s[1..], p)
  }

  /** Lower case of the runes that can become part of an ASCII tag; the only
      non-ASCII rune that lowers to an ASCII letter of "<i>" is U+0130. */
  function LowerChar(c: char): char {
    if 'A' <= c <= 'Z' then ((c as int) + 32) as char
    else if c == '\U{130}' then 'i'
    else c
  }

  function Lower(s: string): (r: string)
    ensures |r| == |s| && forall i | 0 <= i < |s| :: r[i] == LowerChar(s[i])
  {
    seq(|s|, i requires 0 <= i < |s| => LowerChar(s[i]))
  }

  function Join(lines: seq<string>, separator: string): string {
    if lines == [] then ""
    else if |lines| == 1 then lines[0]
    else lines[0] + separator + Join(lines[1..], separator)
  }

  predicate IsDigit(c: char) { '0' <= c <= '9' }

  function Digit(d: nat): char
    requires d < 10
  {
    ('0' as int + d) as char
  }

  /** Decimal digits of n, without leading zeros. */
  function Itoa(n: nat): (s: string)
    ensures s != "" && forall i | 0 <= i < |s| :: IsDigit(s[i])
  {
    if n < 10 then [Digit(n)] else Itoa(n / 10) + [Digit(n % 10)]
  }

  function DigitValue(c: char): nat
    requires IsDigit(c)
  {
    c as int - '0' as int
  }

  /** The number a string of digits denotes. */
  function Number(s: string): nat
    requires forall i | 0 <= i < |s| :: IsDigit(s[i])
  {
    if s == "" then 0 else 10 * Number(s[..|s| - 1]) + DigitValue(s[|s| - 1])
  }

  /** strconv.Atoi succeeds: an optional sign and digits within 64 bits. */
  predicate IsNumber(s: string) {
    var digits := if s != "" && s[0] in "+-" then s[1..] else s;
    && digits != ""
    && (forall i | 0 <= i < |digits| :: IsDigit(digits[i]))
    && Number(digits) <= if s[0] == '-' then 0x8000_0000_0000_0000 else 0x7fff_ffff_ffff_ffff
  }

  lemma {:induction false} NumberOfItoa(n: nat)
    ensures Number(Itoa(n)) == n
  {
    if n >= 10 {
      NumberOfItoa(n / 10);
      assert Itoa(n)[..|Itoa(n)| - 1] == Itoa(n / 10);
    }
  }

  lemma ItoaLength(n: nat)
    ensures n < 100 ==> |Itoa(n)| <= 2
    ensures n < 1000 ==> |Itoa(n)| <= 3
  {
    if n >= 10 {
      assert Itoa(n) == Itoa(n / 10) + [Digit(n % 10)];
      if n >= 100 {
        assert Itoa(n / 10) == Itoa(n / 10 / 10) + [Digit(n / 10 % 10)];
      }
    }
  }

  lemma NumberOfTwo(s: string)
    requires |s| == 2 && IsDigit(s[0]) && IsDigit(s[1])
    ensures Number(s) == 10 * DigitValue(s[0]) + DigitValue(s[1])
  {
    assert s[..1][..0] == "";
    assert Number(s[..1]) == DigitValue(s[0]);
  }

  lemma NumberOfThree(s: string)
    requires |s| == 3 && forall i | 0 <= i < 3 :: IsDigit(s[i])
    ensures Number(s) == 100 * DigitValue(s[0]) + 10 * DigitValue(s[1]) + DigitValue(s[2])
  {
    NumberOfTwo(s[..2]);
  }

  lemma {:induction false} SpacesTrimAway(s: string)
    ensures TrimLeft(s) == "" <==> forall i | 0 <= i < |s| :: IsSpace(s[i])
  {
    if s != "" && IsSpace(s[0]) {
      SpacesTrimAway(s[1..]);
      assert forall i | 1 <= i < |s| :: s[i] == s[1..][i - 1];
    }
  }

  lemma {:induction false} TrimRightKeepsFirst(s: string)
    requires s != "" && !IsSpace(s[0])
    ensures TrimRight(s) != ""
  {
    if IsSpace(s[|s| - 1]) {
      TrimRightKeepsFirst(s[..|s| - 1]);
    }
  }

  lemma {:induction false} TrimLeftStops(s: string)
    ensures TrimLeft(s) == "" || !IsSpace(TrimLeft(s)[0])
  {
    if s != "" && IsSpace(s[0]) {
      TrimLeftStops(s[1..]);
    }
  }

  /** A line is blank exactly when it holds only white space. */
  lemma {:induction false} BlankMeansSpaces(s: string)
    ensures Blank(s) <==> forall i | 0 <= i < |s| :: IsSpace(s[i])
  {
    SpacesTrimAway(s);
    TrimLeftStops(s);
    if TrimLeft(s) != "" {
      TrimRightKeepsFirst(TrimLeft(s));
    }
  }

  lemma NonSpaceMeansNotBlank(s: string, i: nat)
    requires i < |s| && !IsSpace(s[i])
    ensures !Blank(s)
  {
    BlankMeansSpaces(s);
  }

  /** p occurs in s at position k. */
  predicate At(s: string, p: string, k: nat) {
    k + |p| <= |s| && s[k..k + |p|] == p
  }

  lemma TailSlice(s: string, low: nat, high: nat)
    requires low <= high < |s|
    ensures s[1..][low..high] == s[low + 1..high + 1]
  {
  }

  /** Contains is occurrence at some position. */
  lemma {:induction false} ContainsIsOccurrence(s: string, p: string)
    ensures Contains(s, p) <==> exists k: nat :: At(s, p, k)
  {
    assert p <= s <==> At(s, p, 0);
    if s != "" {
      ContainsIsOccurrence(s[1..], p);
      forall k: nat ensures At(s[1..], p, k) <==> At(s, p, k + 1) {
        if k + 1 + |p| <= |s| {
          TailSlice(s, k, k + |p|);
        }
      }
      if k: nat :| At(s, p, k) && k > 0 {
        assert At(s[1..], p, k - 1);
      }
    }
  }

  lemma ContainsAround(a: string, p: string, b: string)
    ensures Contains(a + p + b, p)
  {
    assert At(a + p + b, p, |a|);
    ContainsIsOccurrence(a + p + b, p);
  }

  lemma ContainsWithin(a: string, b: string, c: string, p: string)
    requires Contains(b, p)
    ensures Contains(a + b + c, p)
  {
    ContainsIsOccurrence(b, p);
    ContainsIsOccurrence(a + b + c, p);
    var k: nat :| At(b, p, k);
    assert (a + b + c)[|a| + k..|a| + k + |p|] == b[k..k + |p|];
    assert At(a + b + c, p, |a| + k);
  }

  lemma ContainsNeeds(s: string, p: string, j: nat)
    requires j < |p| && p[j] !in s
    ensures !Contains(s, p)
  {
    ContainsIsOccurrence(s, p);
    forall k: nat ensures !At(s, p, k) {
      assert k + |p| <= |s| ==> s[k..k + |p|][j] == s[k + j];
    }
  }

  /** Appending text that cannot continue an occurrence adds none. */
  lemma ContainsAppend(s: string, t: string, p: string)
    requires t != "" && t[0] !in p && !Contains(t, p)
    ensures Contains(s + t, p) <==> Contains(s, p)
  {
    ContainsIsOccurrence(s, p);
    ContainsIsOccurrence(t, p);
    ContainsIsOccurrence(s + t, p);
    forall k: nat ensures At(s + t, p, k) <==> At(s, p, k) {
      if k + |p| <= |s| {
        assert (s + t)[k..k + |p|] == s[k..k + |p|];
      } else if k >= |s| {
        assert k + |p| <= |s + t| ==> (s + t)[k..k + |p|] == t[k - |s|..k - |s| + |p|];
        assert !At(t, p, k - |s|);
      } else {
        assert k + |p| <= |s + t| ==> (s + t)[k..k + |p|][|s| - k] == t[0];
      }
    }
  }

  /** Trimming does not hide text that has no white space of its own. */
  lemma {:induction false} TrimKeepsContains(s: string, p: string)
    requires p != "" && forall i | 0 <= i < |p| :: !IsSpace(p[i])
    ensures Contains(TrimSpace(s), p) <==> Contains(s, p)
  {
    TrimLeftKeepsContains(s, p);
    TrimRightKeepsContains(TrimLeft(s), p);
  }

  lemma {:induction false} TrimLeftKeepsContains(s: string, p: string)
    requires p != "" && forall i | 0 <= i < |p| :: !IsSpace(p[i])
    ensures Contains(TrimLeft(s), p) <==> Contains(s, p)
  {
    if s != "" {
      assert p <= s ==> p[0] == s[0];
      if IsSpace(s[0]) {
        TrimLeftKeepsContains(s[1..], p);
      }
    }
  }

  lemma {:induction false} TrimRightKeepsContains(s: string, p: string)
    requires p != "" && forall i | 0 <= i < |p| :: !IsSpace(p[i])
    ensures Contains(TrimRight(s), p) <==> Contains(s, p)
  {
    if s != "" && IsSpace(s[|s| - 1]) {
      var t := s[..|s| - 1];
      TrimRightKeepsContains(t, p);
      ContainsIsOccurrence(t, p);
      ContainsIsOccurrence(s, p);
      forall k: nat ensures At(t, p, k) <==> At(s, p, k) {
        if k + |p| < |s| {
          assert t[k..k + |p|] == s[k..k + |p|];
        } else if k + |p| == |s| {
          assert s[k..k + |p|][|p| - 1] == s[|s| - 1];
        }
      }
    }
  }

  /** Counting splits at a point that no occurrence can straddle. */
  lemma {:induction false} CountAppend(a: string, b: string, p: string)
    requires p != "" && (b == "" || b[0] !in p[1..])
    ensures Count(a + b, p) == Count(a, p) + Count(b, p)
    decreases |a|
  {
    if a == "" {
      assert a + b == b;
    } else if p <= a {
      assert (a + b)[|p|..] == a[|p|..] + b;
      CountAppend(a[|p|..], b, p);
    } else {
      NoStraddle(a, b, p);
      assert (a + b)[1..] == a[1..] + b;
      CountAppend(a[1..], b, p);
    }
  }

  lemma NoStraddle(a: string, b: string, p: string)
    requires a != "" && p != "" && (b == "" || b[0] !in p[1..])
    ensures p <= a + b ==> p <= a
  {
    if |a| < |p| && b != "" {
      assert p[1..][|a| - 1] == p[|a|];
      assert (a + b)[|a|] == b[0];
    }
  }

  lemma LowerAppend(a: string, b: string)
    ensures Lower(a + b) == Lower(a) + Lower(b)
  {
  }

  /** Lexicographic order by code point, which is also the order of the UTF-8
      bytes. */
  predicate StringLe(a: string, b: string) {
    a == "" || (b != "" && (a[0] < b[0] || (a[0] == b[0] && StringLe(a[1..], b[1..]))))
  }

  lemma {:induction false} StringLeFacts(a: string, b: string, c: string)
    ensures StringLe(a, b) || StringLe(b, a)
    ensures StringLe(a, b) && StringLe(b, a) ==> a == b
    ensures StringLe(a, b) && StringLe(b, c) ==> StringLe(a, c)
  {
    if a != "" && b != "" {
      assert a == [a[0]] + a[1..] && b == [b[0]] + b[1..];
      StringLeFacts(a[1..], b[1..], if c == "" then "" else c[1..]);
    }
  }
}
