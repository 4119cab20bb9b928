/** The handful of Python `str` operations the modelled code relies on,
    each defined once and specified by what it returns rather than how.
    Characters are Dafny `char`s; only the ASCII behaviour of `lower()` and
    `strip()` is modelled.
 */
module Text {
  import opened Wrappers

  predicate StartsWith(s: string, prefix: string) {
    |prefix| <= |s| && s[..|prefix|] == prefix
  }

  predicate EndsWith(s: string, suffix: string) {
    |suffix| <= |s| && s[|s| - |suffix|..] == suffix
  }

  /** `pat` occurs in `s` at position `i`. */
  predicate OccursAt(s: string, pat: string, i: int) {
    0 <= i && i + |pat| <= |s| && s[i..i + |pat|] == pat
  }

  // ---------------------------------------------------------------------
  // Case and whitespace

  function LowerChar(c: char): (r: char)
    ensures 'A' <= c <= 'Z' ==> 'a' <= r <= 'z'
    ensures !('A' <= c <= 'Z') ==> r == c
  {
    if 'A' <= c <= 'Z' then (c as int - 'A' as int + 'a' as int) as char else c
  }

  /** `str.lower()` restricted to ASCII letters. */
  function Lower(s: string): (r: string)
    ensures |r| == |s|
    ensures forall i :: 0 <= i < |s| ==> r[i] == LowerChar(s[i])
  {
    if |s| == 0 then [] else [LowerChar(s[0])] + Lower(s[1..])
  }

  /** The ASCII characters Python's `str.isspace()` accepts. */
  predicate IsSpace(c: char) {
    c == ' ' || '\t' <= c <= '\r' || '\U{1c}' <= c <= '\U{1f}'
  }

  function TrimLeft(s: string): (r: string)
    ensures |r| <= |s| && r == s[|s| - |r|..]
    ensures forall i :: 0 <= i < |s| - |r| ==> IsSpace(s[i])
    ensures |r| > 0 ==> !IsSpace(r[0])
  {
    if |s| > 0 && IsSpace(s[0]) then TrimLeft(s[1..]) else s
  }

  function TrimRight(s: string): (r: string)
    ensures |r| <= |s| && r == s[..|r|]
    ensures forall i :: |r| <= i < |s| ==> IsSpace(s[i])
    ensures |r| > 0 ==> !IsSpace(r[|r| - 1])
  {
    if |s| > 0 && IsSpace(s[|s| - 1]) then TrimRight(s[..|s| - 1]) else s
  }

  /** `str.strip()`: the longest slice of `s` with no surrounding whitespace. */
  function Strip(s: string): (r: string)
    ensures |r| <= |s| && forall c :: c in r ==> c in s
    ensures |r| > 0 ==> !IsSpace(r[0]) && !IsSpace(r[|r| - 1])
    ensures r == [] <==> forall i :: 0 <= i < |s| ==> IsSpace(s[i])
    ensures |s| > 0 && !IsSpace(s[0]) && !IsSpace(s[|s| - 1]) ==> r == s
    ensures exists a :: SpaceAround(s, r, a)
  {
    var left := TrimLeft(s);
    var r := TrimRight(left);
    StripIsSlice(s, left, r);
    assert SpaceAround(s, r, |s| - |left|);
    r
  }

  /** `r` is the slice of `s` starting at `a`, with only whitespace before
      and after it. */
  ghost predicate SpaceAround(s: string, r: string, a: int) {
    && 0 <= a && a + |r| <= |s| && r == s[a..a + |r|]
    && (forall i :: 0 <= i < a ==> IsSpace(s[i]))
    && (forall i :: a + |r| <= i < |s| ==> IsSpace(s[i]))
  }

  /** What the two trims leave is a slice of `s` with only whitespace
      around it. */
  lemma StripIsSlice(s: string, left: string, r: string)
    requires |left| <= |s| && left == s[|s| - |left|..]
    requires forall i :: 0 <= i < |s| - |left| ==> IsSpace(s[i])
    requires |r| <= |left| && r == left[..|r|]
    requires forall i :: |r| <= i < |left| ==> IsSpace(left[i])
    ensures r == s[|s| - |left|..|s| - |left| + |r|]
    ensures forall i :: |s| - |left| + |r| <= i < |s| ==> IsSpace(s[i])
    ensures forall c :: c in r ==> c in s
  {
    var a := |s| - |left|;
    forall i | a + |r| <= i < |s| ensures IsSpace(s[i]) {
      assert s[i] == left[i - a];
    }
    forall c | c in r ensures c in s {
      var i :| 0 <= i < |r| && r[i] == c;
      assert s[a + i] == c;
    }
  }

  /** `str.rstrip(c)` for a single character `c`. */
  function RStripChar(s: string, c: char): (r: string)
    ensures StartsWith(s, r)
    ensures |r| > 0 ==> r[|r| - 1] != c
    ensures forall i :: |r| <= i < |s| ==> s[i] == c
  {
    if |s| > 0 && s[|s| - 1] == c then RStripChar(s[..|s| - 1], c) else s
  }

  // ---------------------------------------------------------------------
  // Splitting

  /** `s.split(c)[0]`: everything before the first `c`, or all of `s`. */
  function TakeUntil(s: string, c: char): (r: string)
    ensures StartsWith(s, r)
    ensures c !in r
    ensures |r| < |s| ==> s[|r|] == c
  {
    if |s| == 0 || s[0] == c then [] else [s[0]] + TakeUntil(s[1..], c)
  }

  /** `s.split(a)[0].split(b)[0]`: the longest prefix of `s` holding neither
      `a` nor `b`. */
  lemma TakeUntilTwice(s: string, a: char, b: char)
    ensures var r := TakeUntil(TakeUntil(s, a), b);
            && StartsWith(s, r) && a !in r && b !in r
            && (|r| < |s| ==> s[|r|] == a || s[|r|] == b)
  {
    var first := TakeUntil(s, a);
    var r := TakeUntil(first, b);
    assert StartsWith(s, r) by {
      assert s[..|r|] == first[..|r|];
    }
    if |r| < |first| {
      assert s[|r|] == first[|r|];
    }
  }

  /** `head, tail = s.split(c, 1)`: None when the unpacking would raise
      because `c` does not occur. */
  function SplitOnce(s: string, c: char): (r: Option<(string, string)>)
    ensures r.None? <==> c !in s
    ensures r.Some? ==> s == r.value.0 + [c] + r.value.1 && c !in r.value.0
  {
    var head := TakeUntil(s, c);
    if |head| == |s| then
      None
    else
      assert s == head + [c] + s[|head| + 1..];
      Some((head, s[|head| + 1..]))
  }

  /** The first position at which `pat` occurs in `s`. */
  function FirstIndexOf(s: string, pat: string): (r: Option<nat>)
    ensures r.Some? ==> OccursAt(s, pat, r.value)
    ensures r.Some? ==> forall j :: 0 <= j < r.value ==> !OccursAt(s, pat, j)
    ensures r.None? ==> forall j :: !OccursAt(s, pat, j)
  {
    FirstIndexFrom(s, pat, 0)
  }

  function FirstIndexFrom(s: string, pat: string, from: nat): (r: Option<nat>)
    requires forall j :: 0 <= j < from ==> !OccursAt(s, pat, j)
    ensures r.Some? ==> from <= r.value && OccursAt(s, pat, r.value)
    ensures r.Some? ==> forall j :: 0 <= j < r.value ==> !OccursAt(s, pat, j)
    ensures r.None? ==> forall j :: !OccursAt(s, pat, j)
    decreases |s| - from
  {
    if |s| < from + |pat| then None
    else if s[from..from + |pat|] == pat then Some(from)
    else FirstIndexFrom(s, pat, from + 1)
  }

  /** `s.split(pat)[-1]`: Python splits left to right at non-overlapping
      occurrences, so this is what follows the last occurrence found by
      that scan (which need not be the last occurrence in `s`). */
  function SplitLast(s: string, pat: string): (r: string)
    requires |pat| > 0
    ensures EndsWith(s, r)
    ensures (forall j :: !OccursAt(s, pat, j)) ==> r == s
    decreases |s|
  {
    match FirstIndexOf(s, pat)
    case None => s
    case Some(i) =>
      var r := SplitLast(s[i + |pat|..], pat);
      EndsWithDrop(s, i + |pat|, r);
      r
  }

  /** A suffix of a suffix of `s` is a suffix of `s`. */
  lemma EndsWithDrop(s: string, n: nat, r: string)
    requires n <= |s| && EndsWith(s[n..], r)
    ensures EndsWith(s, r)
  {
    assert s[|s| - |r|..] == s[n..][|s[n..]| - |r|..];
  }

  // ---------------------------------------------------------------------
  // Decimal digits

  predicate IsDigit(c: char) {
    '0' <= c <= '9'
  }

  function DigitChar(d: nat): (c: char)
    requires d < 10
    ensures IsDigit(c)
  {
    ('0' as int + d) as char
  }

  function DigitValue(c: char): (d: nat)
    requires IsDigit(c)
    ensures d < 10 && DigitChar(d) == c
  {
    c as int - '0' as int
  }

  /** Decimal rendering of a natural number, most significant digit first,
      no leading zeros (`str(n)`). */
  function Digits(n: nat): (r: string)
    ensures |r| > 0
    ensures forall i :: 0 <= i < |r| ==> IsDigit(r[i])
    ensures n < 10 <==> |r| == 1
    decreases n
  {
    if n < 10 then [DigitChar(n)] else Digits(n / 10) + [DigitChar(n % 10)]
  }

  /** `int(s)` restricted to non-empty strings of ASCII digits. */
  function ParseDigits(s: string): (r: Option<nat>)
    ensures r.Some? <==> |s| > 0 && forall i :: 0 <= i < |s| ==> IsDigit(s[i])
  {
    if |s| == 0 then None
    else if !IsDigit(s[|s| - 1]) then None
    else if |s| == 1 then Some(DigitValue(s[0]))
    else
      match ParseDigits(s[..|s| - 1])
      case None => None
      case Some(high) => Some(high * 10 + DigitValue(s[|s| - 1]))
  }

  lemma {:induction false} ParseDigitsOfDigits(n: nat)
    ensures ParseDigits(Digits(n)) == Some(n)
    decreases n
  {
    if n >= 10 {
      var s := Digits(n);
      assert s[..|s| - 1] == Digits(n / 10);
      ParseDigitsOfDigits(n / 10);
    }
  }

  lemma DigitsInjective(a: nat, b: nat)
    ensures Digits(a) == Digits(b) <==> a == b
  {
    if Digits(a) == Digits(b) {
      ParseDigitsOfDigits(a);
      ParseDigitsOfDigits(b);
    }
  }

  /** `f"{n:02d}"`: at least two digits, padded with a leading zero. */
  function Pad2(n: nat): (r: string)
    ensures |r| >= 2
    ensures forall i :: 0 <= i < |r| ==> IsDigit(r[i])
  {
    if n < 10 then "0" + Digits(n) else Digits(n)
  }

  lemma Pad2Injective(a: nat, b: nat)
    ensures Pad2(a) == Pad2(b) <==> a == b
  {
    if Pad2(a) == Pad2(b) {
      if a < 10 && b < 10 {
        assert Digits(a) == Pad2(a)[1..];
        assert Digits(b) == Pad2(b)[1..];
      } else if a < 10 {
        // Pad2(a) starts with '0', Digits(b) for b >= 10 does not
        LeadingDigitNonZero(b);
      } else if b < 10 {
        LeadingDigitNonZero(a);
      }
      DigitsInjective(a, b);
    }
  }

  lemma {:induction false} LeadingDigitNonZero(n: nat)
    requires n >= 10
    ensures Digits(n)[0] != '0'
    decreases n
  {
    if n / 10 >= 10 {
      LeadingDigitNonZero(n / 10);
    }
  }
}
