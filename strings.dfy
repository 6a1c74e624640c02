/**
 * The string operations the evaluators rely on: prefix and suffix tests,
 * `split` with a separator, the decimal rendering and parsing of
 * non-negative integers, and the `<prefix>(\d+)` regular-expression match
 * used to pull numeric identifiers out of interface names.
 */
module Strings {
  import opened Wrappers

  /** `s.startswith(p)` */
  predicate StartsWith(s: string, p: string) {
    |p| <= |s| && s[..|p|] == p
  }

  /** `s.endswith(p)` */
  predicate EndsWith(s: string, p: string) {
    |p| <= |s| && s[|s| - |p|..] == p
  }

  /** `sep` occurs in `s` at position `i`. */
  predicate OccursAt(s: string, sep: string, i: int) {
    0 <= i && i + |sep| <= |s| && s[i..i + |sep|] == sep
  }

  /** The first position at which `sep` occurs in `s`, searching from `from`. */
  function FindFrom(s: string, sep: string, from: nat): (r: Option<nat>)
    requires |sep| > 0
    ensures r.Some? ==> from <= r.value && OccursAt(s, sep, r.value)
    ensures r.Some? ==> forall j :: from <= j < r.value ==> !OccursAt(s, sep, j)
    ensures r.None? ==> forall j :: from <= j ==> !OccursAt(s, sep, j)
    decreases |s| - from
  {
    if from + |sep| > |s| then None
    else if s[from..from + |sep|] == sep then Some(from)
    else FindFrom(s, sep, from + 1)
  }

  /** `s.split(sep, 1)[0]`: everything before the first occurrence of `sep`, or all of `s`. */
  function BeforeFirst(s: string, sep: string): (r: string)
    requires |sep| > 0
    ensures (forall j :: !OccursAt(s, sep, j)) ==> r == s
    ensures (exists j :: OccursAt(s, sep, j)) ==> OccursAt(s, sep, |r|) && StartsWith(s, r)
    ensures forall j :: 0 <= j < |r| ==> !OccursAt(s, sep, j)
  {
    match FindFrom(s, sep, 0)
    case None => s
    case Some(i) => s[..i]
  }

  /** `s.split(sep)[-1]`: everything after the last occurrence of `sep`, or all of `s`. */
  function AfterLast(s: string, sep: string): (r: string)
    requires |sep| > 0
    ensures EndsWith(s, r)
    ensures (forall j :: !OccursAt(s, sep, j)) ==> r == s
    ensures forall j :: !OccursAt(r, sep, j)
    ensures FindFrom(s, sep, 0).Some? ==> OccursAt(s, sep, |s| - |r| - |sep|)
    decreases |s|
  {
    match FindFrom(s, sep, 0)
    case None => s
    case Some(i) =>
      var rest := s[i + |sep|..];
      var r := AfterLast(rest, sep);
      assert s[|s| - |r|..] == rest[|rest| - |r|..];
      if FindFrom(rest, sep, 0).Some? then
        PieceShift(s, rest, sep, i + |sep|, r);
        r
      else
        assert r == rest;
        r
  }

  /** Wherever `sep` occurs in `s`, the piece `AfterLast` keeps is preceded by an occurrence of it, and holds none. */
  lemma AfterLastFollowsSeparator(s: string, sep: string, j: int)
    requires |sep| > 0 && OccursAt(s, sep, j)
    ensures var r := AfterLast(s, sep);
            OccursAt(s, sep, |s| - |r| - |sep|) && |r| < |s|
  {
    assert FindFrom(s, sep, 0).Some?;
  }

  /** The VLAN id of an SVI name is what follows "Vlan", not any shorter suffix. */
  lemma AfterLastVlanExample()
    ensures AfterLast("Vlan10", "Vlan") == "10"
  {
    assert OccursAt("Vlan10", "Vlan", 0);
    assert "Vlan10"[4..] == "10";
    assert FindFrom("10", "Vlan", 0).None?;
  }

  /** A separator right before the last `|r|` characters of a suffix `t` of `s` is one in `s` too. */
  lemma PieceShift(s: string, t: string, sep: string, off: nat, r: string)
    requires off <= |s| && t == s[off..] && OccursAt(t, sep, |t| - |r| - |sep|)
    ensures OccursAt(s, sep, |s| - |r| - |sep|)
  {
    var k := |t| - |r| - |sep|;
    assert s[off + k..off + k + |sep|] == t[k..k + |sep|];
  }

  predicate IsDigit(c: char) { '0' <= c <= '9' }

  /** A non-empty run of ASCII digits: a string `int(s)` accepts as written by EOS. */
  predicate IsDecimal(s: string) {
    |s| > 0 && forall i :: 0 <= i < |s| ==> IsDigit(s[i])
  }

  /** A decimal string without a redundant leading zero, as `str(n)` writes it. */
  predicate IsCanonicalDecimal(s: string) {
    IsDecimal(s) && (s[0] != '0' || |s| == 1)
  }

  function DigitChar(d: nat): (c: char)
    requires d < 10
    ensures IsDigit(c)
  {
    "0123456789"[d]
  }

  function DigitValue(c: char): (d: nat)
    requires IsDigit(c)
    ensures d < 10 && DigitChar(d) == c
  {
    (c as int - '0' as int) as nat
  }

  /** `str(n)` for a non-negative integer. */
  function NatToDecimal(n: nat): (s: string)
    ensures IsCanonicalDecimal(s)
  {
    if n < 10 then [DigitChar(n)]
    else
      var s := NatToDecimal(n / 10) + [DigitChar(n % 10)];
      assert s[0] == NatToDecimal(n / 10)[0];
      s
  }

  /** `int(s)` for a string of decimal digits (leading zeros are accepted, as Python does). */
  function DecimalToNat(s: string): nat
    requires IsDecimal(s) || s == []
  {
    if s == [] then 0
    else DecimalToNat(s[..|s| - 1]) * 10 + DigitValue(s[|s| - 1])
  }

  /** `int(str(n)) == n` */
  lemma {:induction false} DecimalRoundTrip(n: nat)
    ensures DecimalToNat(NatToDecimal(n)) == n
  {
    if n >= 10 {
      var a := NatToDecimal(n / 10);
      var s := a + [DigitChar(n % 10)];
      assert s[..|s| - 1] == a;
      DecimalRoundTrip(n / 10);
    }
  }

  lemma {:induction false} CanonicalLeadingValue(s: string)
    requires IsCanonicalDecimal(s) && s[0] != '0'
    ensures DecimalToNat(s) >= 1
  {
    if |s| > 1 {
      var a := s[..|s| - 1];
      assert a[0] == s[0];
      CanonicalLeadingValue(a);
    }
  }

  /** `str(int(s)) == s` for a canonical decimal string. */
  lemma {:induction false} CanonicalRoundTrip(s: string)
    requires IsCanonicalDecimal(s)
    ensures NatToDecimal(DecimalToNat(s)) == s
  {
    if |s| > 1 {
      var a := s[..|s| - 1];
      assert a[0] == s[0];
      var v, d := DecimalToNat(a), DigitValue(s[|s| - 1]);
      assert DecimalToNat(s) == v * 10 + d;
      CanonicalLeadingValue(a);
      assert (v * 10 + d) / 10 == v && (v * 10 + d) % 10 == d;
      CanonicalRoundTrip(a);
      assert NatToDecimal(v * 10 + d) == a + [DigitChar(d)];
      assert s == a + [s[|s| - 1]];
    }
  }

  /** `str` is injective on non-negative integers. */
  lemma DecimalInjective(m: nat, n: nat)
    ensures NatToDecimal(m) == NatToDecimal(n) <==> m == n
  {
    if NatToDecimal(m) == NatToDecimal(n) {
      DecimalRoundTrip(m);
      DecimalRoundTrip(n);
    }
  }

  /** The longest run of digits at the head of `s`. */
  function LeadingDigits(s: string): (r: string)
    ensures StartsWith(s, r)
    ensures forall i :: 0 <= i < |r| ==> IsDigit(r[i])
    ensures |r| < |s| ==> !IsDigit(s[|r|])
  {
    if s == [] || !IsDigit(s[0]) then []
    else [s[0]] + LeadingDigits(s[1..])
  }

  /**
   * `re.match(prefix + r"(\d+)", s).group(1)`: the digits immediately after
   * `prefix` at the start of `s`, or None when `s` does not match.
   */
  function MatchDigitsAfter(s: string, prefix: string): (r: Option<string>)
    ensures r.Some? <==> StartsWith(s, prefix) && |s| > |prefix| && IsDigit(s[|prefix|])
    ensures r.Some? ==> IsDecimal(r.value) && StartsWith(s, prefix + r.value)
    ensures r.Some? ==> |prefix| + |r.value| == |s| || !IsDigit(s[|prefix| + |r.value|])
  {
    if StartsWith(s, prefix) && |s| > |prefix| && IsDigit(s[|prefix|]) then
      var rest := s[|prefix|..];
      var d := LeadingDigits(rest);
      assert d[0] == rest[0];
      assert s[..|prefix| + |d|] == prefix + d by {
        assert s[..|prefix|] == prefix;
        assert rest[..|d|] == d;
      }
      Some(d)
    else None
  }

  /** A string of digits is its own leading digits. */
  lemma {:induction false} AllDigitsLeading(s: string)
    requires forall i :: 0 <= i < |s| ==> IsDigit(s[i])
    ensures LeadingDigits(s) == s
  {
    if s != [] {
      AllDigitsLeading(s[1..]);
    }
  }

  /** The pattern `prefix(\d+)` captures all the digits after the prefix. */
  lemma PrefixedDecimalMatch(prefix: string, d: string)
    requires IsDecimal(d)
    ensures MatchDigitsAfter(prefix + d, prefix) == Some(d)
  {
    var s := prefix + d;
    assert s[..|prefix|] == prefix;
    assert s[|prefix|..] == d;
    assert s[|prefix|] == d[0];
    AllDigitsLeading(d);
  }

  /** `s[:n]`: the first `n` characters of `s`, or all of `s` when it is shorter. */
  function Take(s: string, n: nat): (r: string)
    ensures |r| == if n <= |s| then n else |s|
    ensures StartsWith(s, r)
  {
    if n <= |s| then s[..n] else s
  }

  /** `s[:len(p)] == p` is the prefix test: it fails whenever `p` is longer than `s`. */
  lemma TakeIsStartsWith(s: string, p: string)
    ensures Take(s, |p|) == p <==> StartsWith(s, p)
    ensures |p| > |s| ==> Take(s, |p|) != p
  {
  }
}
