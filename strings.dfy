/** String helpers shared by the JavaScript and the Python side: decimal rendering of
    integers (`toString()` / `str()`), and a global, left-to-right, non-overlapping
    replacement (`s.replace(/pat/g, rep)` with a literal pattern). */
module Strings {

  predicate IsDigit(c: char) {
    '0' <= c <= '9'
  }

  predicate AllDigits(s: string) {
    forall i :: 0 <= i < |s| ==> IsDigit(s[i])
  }

  function DigitChar(d: nat): (c: char)
    requires d < 10
    ensures IsDigit(c) && c as int - '0' as int == d
  {
    (d + '0' as int) as char
  }

  /** Decimal digits of `n`, most significant first, without leading zeros. */
  function NatToString(n: nat): (s: string)
    ensures |s| > 0 && AllDigits(s)
    ensures n >= 10 ==> s[0] != '0'
    decreases n
  {
    if n < 10 then [DigitChar(n)] else NatToString(n / 10) + [DigitChar(n % 10)]
  }

  /** `Number.prototype.toString()` and Python's `str()` on an integer. */
  function IntToString(i: int): (s: string)
    ensures |s| > 0
    ensures forall k :: 0 <= k < |s| ==> IsDigit(s[k]) || s[k] == '-'
  {
    if i < 0 then "-" + NatToString(-i) else NatToString(i)
  }

  /** The value of a string of decimal digits. */
  function ParseNat(s: string): nat
    requires AllDigits(s)
    decreases |s|
  {
    if s == [] then 0 else 10 * ParseNat(s[..|s| - 1]) + (s[|s| - 1] as int - '0' as int)
  }

  /** The length of the run of digits that `s` starts with. */
  function LeadingDigits(s: string): (n: nat)
    ensures n <= |s|
    ensures forall i :: 0 <= i < n ==> IsDigit(s[i])
    ensures n < |s| ==> !IsDigit(s[n])
    decreases |s|
  {
    if s != [] && IsDigit(s[0]) then 1 + LeadingDigits(s[1..]) else 0
  }

  lemma LeadingDigitsOf(digits: string, rest: string)
    requires AllDigits(digits) && |rest| > 0 && !IsDigit(rest[0])
    ensures LeadingDigits(digits + rest) == |digits|
    decreases |digits|
  {
    if digits != [] {
      assert (digits + rest)[1..] == digits[1..] + rest;
      LeadingDigitsOf(digits[1..], rest);
    }
  }

  /** Reading back the digits of a number gives the number: so NatToString is injective. */
  lemma {:induction false} ParseNatToString(n: nat)
    ensures ParseNat(NatToString(n)) == n
    decreases n
  {
    var s := NatToString(n);
    if n >= 10 {
      ParseNatToString(n / 10);
      assert s[..|s| - 1] == NatToString(n / 10);
    }
  }

  lemma NatToStringInjective(m: nat, n: nat)
    requires NatToString(m) == NatToString(n)
    ensures m == n
  {
    ParseNatToString(m);
    ParseNatToString(n);
  }

  predicate StartsWith(s: string, p: string) {
    |p| <= |s| && s[..|p|] == p
  }

  /** `p` occurs somewhere in `s`. */
  predicate Occurs(s: string, p: string) {
    exists i :: 0 <= i <= |s| - |p| && StartsWith(s[i..], p)
  }

  /** No character of `a` occurs in `b`. */
  predicate NoCommonChar(a: string, b: string) {
    forall i, j :: 0 <= i < |a| && 0 <= j < |b| ==> a[i] != b[j]
  }

  /** `s.replace(/pat/g, rep)`: scan left to right; where `pat` starts, emit `rep` and
      continue after the match, otherwise keep the character and move on by one. */
  function ReplaceAll(s: string, pat: string, rep: string): string
    requires |pat| > 0
    decreases |s|
  {
    if |s| < |pat| then s
    else if s[..|pat|] == pat then rep + ReplaceAll(s[|pat|..], pat, rep)
    else [s[0]] + ReplaceAll(s[1..], pat, rep)
  }

  /** A string in which the pattern does not occur comes back unchanged. */
  lemma {:induction false} ReplaceAllAbsent(s: string, pat: string, rep: string)
    requires |pat| > 0 && !Occurs(s, pat)
    ensures ReplaceAll(s, pat, rep) == s
    decreases |s|
  {
    if |s| >= |pat| {
      assert s[0..] == s;
      forall i | 0 <= i <= |s[1..]| - |pat|
        ensures !StartsWith(s[1..][i..], pat)
      {
        assert s[1..][i..] == s[i + 1..];
      }
      ReplaceAllAbsent(s[1..], pat, rep);
    }
  }

  /** Replacing by a text sharing no character with `w` cannot create `w` at the start. */
  lemma {:induction false} ReplaceAllAddsNoForeignPrefix(u: string, pat: string, rep: string, w: string)
    requires |pat| > 0 && |rep| > 0 && |w| > 0 && NoCommonChar(w, rep)
    requires !StartsWith(u, w)
    ensures !StartsWith(ReplaceAll(u, pat, rep), w)
    decreases |u|
  {
    var out := ReplaceAll(u, pat, rep);
    if |u| >= |pat| {
      if u[..|pat|] == pat {
        assert out[0] == rep[0];
      } else if u[0] == w[0] && |w| > 1 {
        var x := ReplaceAll(u[1..], pat, rep);
        assert out == [u[0]] + x;
        if |u| >= |w| {
          assert u[..|w|] == [u[0]] + u[1..][..|w| - 1];
        }
        ReplaceAllAddsNoForeignPrefix(u[1..], pat, rep, w[1..]);
        if |out| >= |w| {
          assert out[..|w|] == [u[0]] + x[..|w| - 1];
        }
      } else {
        assert out[0] == u[0];
      }
    }
  }

  /** After a global replacement by a text sharing no character with the pattern,
      the pattern no longer occurs. */
  lemma {:induction false} ReplaceAllRemovesPattern(s: string, pat: string, rep: string)
    requires |pat| > 0 && |rep| > 0 && NoCommonChar(pat, rep)
    ensures !Occurs(ReplaceAll(s, pat, rep), pat)
    decreases |s|
  {
    var out := ReplaceAll(s, pat, rep);
    if |s| >= |pat| {
      if s[..|pat|] == pat {
        var x := ReplaceAll(s[|pat|..], pat, rep);
        ReplaceAllRemovesPattern(s[|pat|..], pat, rep);
        assert out == rep + x;
        forall i | 0 <= i <= |out| - |pat|
          ensures !StartsWith(out[i..], pat)
        {
          if i < |rep| {
            assert out[i..][0] == rep[i];
          } else {
            assert out[i..] == x[i - |rep|..];
          }
        }
      } else {
        var x := ReplaceAll(s[1..], pat, rep);
        ReplaceAllRemovesPattern(s[1..], pat, rep);
        assert out == [s[0]] + x;
        forall i | 0 <= i <= |out| - |pat|
          ensures !StartsWith(out[i..], pat)
        {
          if i == 0 {
            assert out[0..] == out;
            if s[0] == pat[0] && |pat| > 1 {
              assert s[..|pat|] == [s[0]] + s[1..][..|pat| - 1];
              ReplaceAllAddsNoForeignPrefix(s[1..], pat, rep, pat[1..]);
              assert out[..|pat|] == [s[0]] + x[..|pat| - 1];
            }
          } else {
            assert out[i..] == x[i - 1..];
          }
        }
      }
    }
  }

  /** Text inside which no occurrence of the pattern starts, then one occurrence: the text
      is kept, the occurrence becomes the replacement, and the scan goes on after it. */
  lemma ReplaceAllSplices(a: string, pat: string, rep: string, b: string)
    requires |pat| > 0
    requires forall i :: 0 <= i < |a| ==> !StartsWith((a + pat + b)[i..], pat)
    ensures ReplaceAll(a + pat + b, pat, rep) == a + rep + ReplaceAll(b, pat, rep)
  {
    assert a + pat + b == a + (pat + b);
    ReplaceAllKeepsUnmatched(a, pat + b, pat, rep);
    ReplaceAllAtMatch(pat, rep, b);
  }

  /** The scan copies a prefix inside which no occurrence of the pattern starts. */
  lemma {:induction false} ReplaceAllKeepsUnmatched(a: string, c: string, pat: string, rep: string)
    requires |pat| > 0
    requires forall i :: 0 <= i < |a| ==> !StartsWith((a + c)[i..], pat)
    ensures ReplaceAll(a + c, pat, rep) == a + ReplaceAll(c, pat, rep)
    decreases |a|
  {
    if a == [] {
      assert a + c == c;
    } else {
      var s := a + c;
      assert !StartsWith(s[0..], pat);
      assert s[0..] == s;
      if |s| < |pat| {
        assert |c| < |pat|;
      } else {
        assert (a + c)[1..] == a[1..] + c;
        forall i | 0 <= i < |a[1..]|
          ensures !StartsWith((a[1..] + c)[i..], pat)
        {
          assert (a[1..] + c)[i..] == s[i + 1..];
        }
        ReplaceAllKeepsUnmatched(a[1..], c, pat, rep);
        assert [a[0]] + a[1..] == a;
      }
    }
  }

  /** No occurrence starts where the text differs from the pattern at offset `k`. */
  lemma NoMatchAt(s: string, i: nat, pat: string, k: nat)
    requires k < |pat| && i + k < |s| && s[i + k] != pat[k]
    ensures !StartsWith(s[i..], pat)
  {
    if |pat| <= |s[i..]| {
      assert s[i..][..|pat|][k] == s[i + k];
    }
  }

  /** No occurrence starts inside a prefix that lacks the pattern's first character. */
  lemma UnmatchedWithoutFirstChar(a: string, c: string, pat: string)
    requires |pat| > 0 && pat[0] !in a
    ensures forall i :: 0 <= i < |a| ==> !StartsWith((a + c)[i..], pat)
  {
    forall i | 0 <= i < |a|
      ensures !StartsWith((a + c)[i..], pat)
    {
      assert (a + c)[i] == a[i];
      NoMatchAt(a + c, i, pat, 0);
    }
  }

  /** A text holding no character of the pattern's first kind holds no occurrence. */
  lemma NoOccurrenceWithoutFirstChar(s: string, pat: string)
    requires |pat| > 0 && pat[0] !in s
    ensures !Occurs(s, pat)
  {
    forall i | 0 <= i <= |s| - |pat|
      ensures !StartsWith(s[i..], pat)
    {
      assert s[i..][0] == s[i];
      assert s[i..][..|pat|][0] == s[i];
    }
  }

  /** At an occurrence of the pattern the scan emits the replacement and skips it. */
  lemma ReplaceAllAtMatch(pat: string, rep: string, b: string)
    requires |pat| > 0
    ensures ReplaceAll(pat + b, pat, rep) == rep + ReplaceAll(b, pat, rep)
  {
    var s := pat + b;
    assert s[..|pat|] == pat && s[|pat|..] == b;
  }

  /** Where the pattern's first character is absent the scan keeps the character. */
  lemma ReplaceAllSkip(s: string, pat: string, rep: string)
    requires |pat| > 0 && |s| > 0 && s[0] != pat[0]
    ensures ReplaceAll(s, pat, rep) == [s[0]] + ReplaceAll(s[1..], pat, rep)
  {
    if |s| >= |pat| {
      assert s[..|pat|][0] == s[0];
    }
  }

  /** With a one-character pattern, replacing distributes over concatenation. */
  lemma {:induction false} ReplaceCharConcat(a: string, b: string, c: char, rep: string)
    ensures ReplaceAll(a + b, [c], rep) == ReplaceAll(a, [c], rep) + ReplaceAll(b, [c], rep)
    decreases |a|
  {
    if a != [] {
      assert (a + b)[1..] == a[1..] + b;
      assert (a + b)[..1] == a[..1];
      ReplaceCharConcat(a[1..], b, c, rep);
    } else {
      assert a + b == b;
    }
  }

  /** Replacing a character that does not occur changes nothing. */
  lemma {:induction false} ReplaceCharAbsent(s: string, c: char, rep: string)
    requires c !in s
    ensures ReplaceAll(s, [c], rep) == s
    decreases |s|
  {
    if s != [] {
      assert s[..1] == [s[0]];
      assert c !in s[1..];
      ReplaceCharAbsent(s[1..], c, rep);
    }
  }
}
