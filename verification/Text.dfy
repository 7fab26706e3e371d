/** Strings as the launcher's Go code sees them: searching, trimming, and decimal numbers. */
module Text {
  predicate StartsWith(s: string, prefix: string) {
    |prefix| <= |s| && s[..|prefix|] == prefix
  }

  lemma PrefixChars(s: string, prefix: string)
    ensures StartsWith(s, prefix) ==> forall i | 0 <= i < |prefix| :: s[i] == prefix[i]
  {
    if StartsWith(s, prefix) {
      assert forall i | 0 <= i < |prefix| :: s[i] == s[..|prefix|][i];
    }
  }

  predicate EndsWith(s: string, suffix: string) {
    |suffix| <= |s| && s[|s| - |suffix|..] == suffix
  }

  predicate Contains(s: string, part: string) {
    StartsWith(s, part) || (s != "" && Contains(s[1..], part))
  }

  // The first position of `c`, or the length when there is none.
  function IndexOf(s: string, c: char): (i: nat)
    ensures i <= |s| && c !in s[..i] && (i < |s| ==> s[i] == c)
  {
    if s == "" || s[0] == c then 0 else 1 + IndexOf(s[1..], c)
  }

  lemma {:induction false} IndexOfSkips(before: string, c: char, after: string)
    requires c !in before
    ensures IndexOf(before + [c] + after, c) == |before|
  {
    if before == "" {
    } else {
      assert (before + [c] + after)[1..] == before[1..] + [c] + after;
      IndexOfSkips(before[1..], c, after);
    }
  }

  /** Where a string occurs in another, in both directions. */
  lemma {:induction false} ContainsAt(s: string, part: string)
    ensures Contains(s, part) <==> exists i :: 0 <= i <= |s| && StartsWith(s[i..], part)
  {
    assert s[0..] == s;
    if s == "" {
    } else {
      ContainsAt(s[1..], part);
      if Contains(s[1..], part) {
        var i :| 0 <= i <= |s[1..]| && StartsWith(s[1..][i..], part);
        assert s[1..][i..] == s[i + 1..];
      }
      if i :| 0 < i <= |s| && StartsWith(s[i..], part) {
        assert s[i..] == s[1..][i - 1..];
      }
    }
  }

  lemma ContainsInside(before: string, part: string, after: string)
    ensures Contains(before + part + after, part)
  {
    var s := before + part + after;
    assert s[|before|..] == part + after;
    assert StartsWith(s[|before|..], part);
    ContainsAt(s, part);
  }

  lemma ContainsSkip(m: string, rest: string, w: string)
    requires m != "" && w != "" && w[0] !in m[1..] && !StartsWith(m + rest, w)
    ensures Contains(m + rest, w) <==> Contains(rest, w)
  {
    assert (m + rest)[1..] == m[1..] + rest;
    ContainsPast(m[1..], rest, w);
  }

  lemma {:induction false} ContainsPast(m: string, rest: string, w: string)
    requires w != "" && w[0] !in m
    ensures Contains(m + rest, w) <==> Contains(rest, w)
  {
    if m == "" {
      assert m + rest == rest;
    } else {
      assert (m + rest)[1..] == m[1..] + rest;
      ContainsPast(m[1..], rest, w);
      PrefixChars(m + rest, w);
    }
  }

  // Go's strings.TrimRight(s, "\r\n").
  function TrimEol(s: string): string {
    if s != "" && (s[|s| - 1] == '\r' || s[|s| - 1] == '\n') then TrimEol(s[..|s| - 1]) else s
  }

  // ---------------------------------------------------------------- decimals

  const MAX_INT: int := 0x7fff_ffff_ffff_ffff
  const MIN_INT: int := -0x8000_0000_0000_0000

  predicate IsDigit(c: char) {
    '0' <= c <= '9'
  }

  predicate AllDigits(s: string) {
    forall c <- s :: IsDigit(c)
  }

  function Itoa(n: nat): (s: string)
    ensures s != "" && AllDigits(s)
  {
    if n < 10 then ['0' + n as char] else Itoa(n / 10) + ['0' + (n % 10) as char]
  }

  function DigitsValue(s: string): nat
    requires AllDigits(s)
  {
    if s == "" then 0
    else
      assert IsDigit(s[|s| - 1]);
      10 * DigitsValue(s[..|s| - 1]) + (s[|s| - 1] - '0') as nat
  }

  // The value that Go's strconv.Atoi returns next to its error: zero for
  // anything that is not a decimal number, clamped when it is out of range.
  function Atoi(s: string): int {
    var signed := s != "" && (s[0] == '-' || s[0] == '+');
    var digits := if signed then s[1..] else s;
    if digits == "" || !AllDigits(digits) then 0
    else
      var n: int := DigitsValue(digits);
      if signed && s[0] == '-' then (if -n < MIN_INT then MIN_INT else -n)
      else if n > MAX_INT then MAX_INT
      else n
  }

  lemma {:induction false} ItoaValue(n: nat)
    ensures DigitsValue(Itoa(n)) == n
  {
    if n < 10 {
    } else {
      ItoaValue(n / 10);
      assert Itoa(n)[..|Itoa(n)| - 1] == Itoa(n / 10);
    }
  }

  /** Printing and parsing a length undo each other, for every length a Go int can hold. */
  lemma AtoiItoa(n: nat)
    requires n <= MAX_INT
    ensures Atoi(Itoa(n)) == n
  {
    ItoaValue(n);
    assert IsDigit(Itoa(n)[0]);
  }
}
