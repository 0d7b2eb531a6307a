/** String utilities the parsers are written against: substring search,
    Python-style `str.split(sep)` / `sep.join(parts)`, and the decimal
    rendering and parsing of integers that `str(n)` and `int(s)` perform. */
module Strings {
  import opened Wrappers

  /** `pat` occurs in `s` starting at index `i`. */
  predicate OccursAt(s: string, pat: string, i: nat) {
    i + |pat| <= |s| && s[i..i + |pat|] == pat
  }

  predicate StartsWith(s: string, prefix: string) {
    MatchesAt(s, prefix, 0)
  }

  /** Python's `pat in s`. */
  ghost predicate Contains(s: string, pat: string) {
    exists i: nat :: OccursAt(s, pat, i)
  }

  /** No occurrence starts at a character other than the pattern's first. */
  lemma NoOccurrenceAtOtherHead(s: string, pat: string, i: nat)
    requires |pat| > 0 && i < |s| && s[i] != pat[0]
    ensures !OccursAt(s, pat, i)
  {
    if i + |pat| <= |s| {
      assert s[i..i + |pat|][0] == s[i];
    }
  }

  /** Character-by-character form of `OccursAt`, which the verifier can
      evaluate on literal strings. */
  predicate MatchesAt(s: string, pat: string, i: nat)
    decreases |pat|
  {
    if |pat| == 0 then i <= |s|
    else i < |s| && s[i] == pat[0] && MatchesAt(s, pat[1..], i + 1)
  }

  lemma {:induction false} MatchesAtIsOccursAt(s: string, pat: string, i: nat)
    ensures MatchesAt(s, pat, i) <==> OccursAt(s, pat, i)
    decreases |pat|
  {
    if |pat| > 0 {
      MatchesAtIsOccursAt(s, pat[1..], i + 1);
      if i + |pat| <= |s| {
        var w := s[i..i + |pat|];
        assert w == [s[i]] + s[i + 1..i + |pat|];
        assert pat == [pat[0]] + pat[1..];
        if w == pat {
          assert w[0] == pat[0] && w[1..] == pat[1..];
        }
        if s[i] == pat[0] && s[i + 1..i + |pat|] == pat[1..] {
          assert w == pat;
        }
      } else {
        assert !OccursAt(s, pat[1..], i + 1);
      }
    }
  }

  /** The first occurrence of `pat` in `s` at or after index `k`. */
  function IndexFrom(s: string, pat: string, k: nat): (r: Option<nat>)
    ensures r.Some? ==> k <= r.value && OccursAt(s, pat, r.value)
    ensures forall j: nat :: k <= j && (r.None? || j < r.value) ==> !OccursAt(s, pat, j)
    decreases |s| - k
  {
    MatchesAtIsOccursAt(s, pat, k);
    if k + |pat| > |s| then None
    else if MatchesAt(s, pat, k) then Some(k)
    else IndexFrom(s, pat, k + 1)
  }

  /** Python's `s.find(pat)`, with `None` for -1. */
  function IndexOf(s: string, pat: string): (r: Option<nat>)
    ensures r.Some? ==> OccursAt(s, pat, r.value)
    ensures forall j: nat :: (r.None? || j < r.value) ==> !OccursAt(s, pat, j)
  {
    IndexFrom(s, pat, 0)
  }

  /** The last occurrence of `pat` in `s` starting strictly below index `k`. */
  function LastIndexBelow(s: string, pat: string, k: nat): (r: Option<nat>)
    ensures r.Some? ==> r.value < k && OccursAt(s, pat, r.value)
    ensures forall j: nat :: j < k && (r.None? || r.value < j) ==> !OccursAt(s, pat, j)
    decreases k
  {
    if k == 0 then None
    else
      MatchesAtIsOccursAt(s, pat, k - 1);
      if MatchesAt(s, pat, k - 1) then Some(k - 1)
      else LastIndexBelow(s, pat, k - 1)
  }

  /** Python's `s.rfind(pat)`, with `None` for -1. */
  function LastIndexOf(s: string, pat: string): (r: Option<nat>)
    ensures r.Some? ==> OccursAt(s, pat, r.value)
    ensures forall j: nat :: (r.None? || r.value < j) ==> !OccursAt(s, pat, j)
  {
    LastIndexBelow(s, pat, |s| + 1)
  }

  /** Python's `sep.join(parts)`. */
  function Join(parts: seq<string>, sep: string): string
  {
    if |parts| == 0 then ""
    else if |parts| == 1 then parts[0]
    else parts[0] + sep + Join(parts[1..], sep)
  }

  /** Python's `s.split(sep)` for a non-empty separator: the pieces between
      successive leftmost occurrences of `sep`. */
  function Split(s: string, sep: string): (parts: seq<string>)
    requires |sep| > 0
    ensures |parts| >= 1
    ensures Join(parts, sep) == s
    ensures forall i :: 0 <= i < |parts| ==> !Contains(parts[i], sep)
    decreases |s|
  {
    match IndexOf(s, sep)
    case None => [s]
    case Some(i) =>
      var head := s[..i];
      var tail := Split(s[i + |sep|..], sep);
      assert !Contains(head, sep) by {
        forall j: nat | OccursAt(head, sep, j)
          ensures false
        {
          assert s[j..j + |sep|] == head[j..j + |sep|];
          assert OccursAt(s, sep, j);
        }
      }
      assert s == head + sep + s[i + |sep|..] by {
        assert s[i..i + |sep|] == sep;
      }
      assert ([head] + tail)[1..] == tail;
      [head] + tail
  }

  /** Splitting undoes joining when no part contains the separator's first
      character. */
  lemma {:induction false} SplitOfJoin(parts: seq<string>, sep: string)
    requires |sep| > 0 && |parts| >= 1
    requires forall i :: 0 <= i < |parts| ==> sep[0] !in parts[i]
    ensures Split(Join(parts, sep), sep) == parts
    decreases |parts|
  {
    var p := parts[0];
    var s := Join(parts, sep);
    forall j: nat | j < |p|
      ensures !OccursAt(s, sep, j)
    {
      assert s[j] == p[j];
      NoOccurrenceAtOtherHead(s, sep, j);
    }
    if |parts| == 1 {
      assert forall j: nat :: !OccursAt(s, sep, j);
      assert IndexOf(s, sep).None?;
    } else {
      var rest := Join(parts[1..], sep);
      assert s == p + sep + rest;
      assert s[|p|..|p| + |sep|] == sep;
      assert OccursAt(s, sep, |p|);
      assert IndexOf(s, sep) == Some(|p|);
      assert s[..|p|] == p;
      assert s[|p| + |sep|..] == rest;
      SplitOfJoin(parts[1..], sep);
    }
  }

  // ---------------------------------------------------------------------
  // Decimal integers

  predicate IsDigit(c: char) {
    '0' <= c <= '9'
  }

  predicate AllDigits(s: string) {
    forall i :: 0 <= i < |s| ==> IsDigit(s[i])
  }

  function DigitChar(d: nat): (c: char)
    requires d < 10
    ensures IsDigit(c) && c as int - '0' as int == d
  {
    (d + '0' as int) as char
  }

  /** The value of a string of decimal digits (the empty string reads 0). */
  function DigitsValue(s: string): nat
    requires AllDigits(s)
  {
    if |s| == 0 then 0
    else DigitsValue(s[..|s| - 1]) * 10 + (s[|s| - 1] as int - '0' as int)
  }

  /** Python's `str(n)` for a natural number: no sign, no leading zeros. */
  function NatToDecimal(n: nat): (s: string)
    ensures 1 <= |s| && AllDigits(s)
    ensures |s| > 1 ==> s[0] != '0'
    decreases n
  {
    if n < 10 then [DigitChar(n)]
    else NatToDecimal(n / 10) + [DigitChar(n % 10)]
  }

  /** Python's `str(i)`. */
  function IntToString(i: int): (s: string)
    ensures 1 <= |s|
    ensures i < 0 <==> s[0] == '-'
  {
    if i < 0 then "-" + NatToDecimal(-i) else NatToDecimal(i)
  }

  /** Python's `int(s)` restricted to an optional `+` or `-` sign followed
      by ASCII decimal digits; anything else is `None` where Python raises. */
  function ParseInt(s: string): (r: Option<int>)
    ensures r.Some? <==>
              (|s| > 0 && AllDigits(s)) || (|s| > 1 && s[0] in "+-" && AllDigits(s[1..]))
  {
    if |s| > 0 && AllDigits(s) then Some(DigitsValue(s) as int)
    else if |s| > 1 && s[0] == '-' && AllDigits(s[1..]) then Some(0 - DigitsValue(s[1..]))
    else if |s| > 1 && s[0] == '+' && AllDigits(s[1..]) then Some(DigitsValue(s[1..]) as int)
    else None
  }

  /** A `+` sign changes nothing, and a `-` sign negates. */
  lemma ParseIntSigns(digits: string)
    requires |digits| > 0 && AllDigits(digits)
    ensures ParseInt("+" + digits) == ParseInt(digits)
    ensures ParseInt("-" + digits) == Some(0 - ParseInt(digits).value)
  {
    var plus, minus := "+" + digits, "-" + digits;
    assert plus[1..] == digits && minus[1..] == digits;
    assert !IsDigit(plus[0]) && !IsDigit(minus[0]);
  }

  lemma {:induction false} DigitsValueOfDecimal(n: nat)
    ensures DigitsValue(NatToDecimal(n)) == n
    decreases n
  {
    var s := NatToDecimal(n);
    if n >= 10 {
      DigitsValueOfDecimal(n / 10);
      assert s[..|s| - 1] == NatToDecimal(n / 10);
    }
  }

  /** `int(str(i)) == i`. */
  lemma ParseIntOfIntToString(i: int)
    ensures ParseInt(IntToString(i)) == Some(i)
  {
    if i < 0 {
      var d := NatToDecimal(-i);
      assert IntToString(i)[1..] == d;
      assert !IsDigit('-');
      DigitsValueOfDecimal(-i);
    } else {
      DigitsValueOfDecimal(i);
    }
  }

  function Pow10(k: nat): nat {
    if k == 0 then 1 else 10 * Pow10(k - 1)
  }

  /** A number below 10^k has at most k decimal digits. */
  lemma {:induction false} DecimalLengthBound(n: nat, k: nat)
    requires 1 <= k && n < Pow10(k)
    ensures |NatToDecimal(n)| <= k
    decreases k
  {
    if n >= 10 {
      assert k >= 2;
      DecimalLengthBound(n / 10, k - 1);
    }
  }
}
