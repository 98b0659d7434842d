/** The few pieces of Python string behaviour that ocr.py relies on:
    `str.endswith`, the slice `s[:-k]`, and `str(n)` for the threshold. */
module Strings {

  /** Python's `s.endswith(suffix)`. The empty suffix matches every string. */
  predicate EndsWith(s: string, suffix: string)
  {
    |suffix| <= |s| && s[|s| - |suffix|..] == suffix
  }

  /** Appending the same text to a string and to one of its suffixes keeps
      the suffix relation. */
  lemma EndsWithAppend(s: string, a: string, b: string)
    requires EndsWith(s, a)
    ensures EndsWith(s + b, a + b)
  {
    assert (s + b)[|s + b| - |a + b|..] == s[|s| - |a|..] + b;
  }

  /** A string ending with `a + b` ends with `b`, and what stands before that
      `b` ends with `a`. */
  lemma EndsWithSplit(s: string, a: string, b: string)
    requires EndsWith(s, a + b)
    ensures EndsWith(s, b)
    ensures EndsWith(s[..|s| - |b|], a)
  {
    var k := |s| - |a + b|;
    assert s[k..] == a + b;
    assert s[|s| - |b|..] == s[k..][|a|..];
    assert s[..|s| - |b|][k..] == s[k..][..|a|];
  }

  /** A string with no blank in it: one word under the blank splitting
      modelled in `Shell`. */
  predicate NoSpace(s: string)
  {
    forall i | 0 <= i < |s| :: s[i] != ' '
  }

  lemma NoSpaceConcat(a: string, b: string)
    requires NoSpace(a) && NoSpace(b)
    ensures NoSpace(a + b)
  {
    assert forall i | 0 <= i < |a + b| :: (a + b)[i] == if i < |a| then a[i] else b[i - |a|];
  }

  lemma NoSpacePrefix(p: string, s: string)
    requires p <= s && NoSpace(s)
    ensures NoSpace(p)
  {
    assert forall i | 0 <= i < |p| :: p[i] == s[i];
  }

  /** Python's slice `s[:-k]` for k >= 0. Because `-0 == 0`, `s[:-0]` is
      `s[:0]`, the EMPTY string, not `s`; and a k longer than `s` clamps to
      the empty string as well. */
  function DropLast(s: string, k: nat): (r: string)
    ensures r <= s
    ensures 0 < k <= |s| ==> |r| == |s| - k
    ensures k == 0 || |s| < k ==> r == []
  {
    if k == 0 || |s| < k then [] else s[..|s| - k]
  }

  /** One decimal digit character. */
  function Digit(d: nat): (c: char)
    requires d < 10
    ensures '0' <= c <= '9'
  {
    (48 + d) as char
  }

  predicate AllDigits(s: string)
  {
    forall i | 0 <= i < |s| :: '0' <= s[i] <= '9'
  }

  /** Python's `str(n)` for a natural number: decimal, most significant digit
      first, no leading zero. */
  function NatToString(n: nat): (s: string)
    ensures s != [] && AllDigits(s)
    ensures |s| > 1 ==> s[0] != '0'
    decreases n
  {
    if n < 10 then [Digit(n)] else NatToString(n / 10) + [Digit(n % 10)]
  }

  /** The value of a string of decimal digits (the reading direction). */
  function DigitsValue(s: string): nat
    requires AllDigits(s)
  {
    if s == [] then 0 else 10 * DigitsValue(s[..|s| - 1]) + (s[|s| - 1] as int - 48)
  }

  /** Reading back what `NatToString` wrote gives the number again. */
  lemma {:induction false} NatToStringRoundTrip(n: nat)
    ensures DigitsValue(NatToString(n)) == n
    decreases n
  {
    if n >= 10 {
      var s := NatToString(n);
      var p := NatToString(n / 10);
      assert s[..|s| - 1] == p;
      NatToStringRoundTrip(n / 10);
    }
  }

  /** Python's `str(i)` for any integer: a leading '-' for negatives. */
  function IntToString(i: int): (s: string)
    ensures s != [] && NoSpace(s)
    ensures i >= 0 <==> AllDigits(s)
    ensures i < 0 <==> s[0] == '-'
  {
    if i < 0 then
      var s := ['-'] + NatToString(-i);
      assert s[0] == '-';
      s
    else
      NatToString(i)
  }

  /** `str(i)` denotes `i`: its digits (after the sign, for a negative)
      read back as the magnitude. */
  lemma IntToStringValue(i: int)
    ensures i >= 0 ==> DigitsValue(IntToString(i)) == i
    ensures i < 0 ==> AllDigits(IntToString(i)[1..]) && DigitsValue(IntToString(i)[1..]) == -i
  {
    if i < 0 {
      var d := NatToString(-i);
      assert IntToString(i) == ['-'] + d;
      assert IntToString(i)[1..] == d;
      NatToStringRoundTrip(-i);
    } else {
      NatToStringRoundTrip(i);
    }
  }
}
