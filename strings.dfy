/**
 * The few Python string operations the scheduler uses on protocol keys:
 * '%i' formatting of a non-negative number, the `in` substring test,
 * str.replace(p, '') and str.split(sep)[0].
 */
module Strings {

  predicate IsDigit(c: char) { '0' <= c <= '9' }

  function DigitChar(d: nat): (c: char)
    requires d < 10
    ensures IsDigit(c)
  {
    "0123456789"[d]
  }

  /** '%i' % n for n >= 0: decimal digits, most significant first, no leading zero. */
  function NatToDecimal(n: nat): (s: string)
    ensures |s| >= 1
    ensures forall k :: 0 <= k < |s| ==> IsDigit(s[k])
    ensures n >= 10 <==> |s| >= 2
  {
    if n < 10 then [DigitChar(n)] else NatToDecimal(n / 10) + [DigitChar(n % 10)]
  }

  lemma {:induction false} DigitCharInjective(a: nat, b: nat)
    requires a < 10 && b < 10 && DigitChar(a) == DigitChar(b)
    ensures a == b
  {
  }

  /** Two numbers with the same decimal spelling are equal. */
  lemma {:induction false} NatToDecimalInjective(m: nat, n: nat)
    requires NatToDecimal(m) == NatToDecimal(n)
    ensures m == n
  {
    var s := NatToDecimal(m);
    if m < 10 && n < 10 {
      DigitCharInjective(m, n);
    } else if m >= 10 && n >= 10 {
      var a, b := NatToDecimal(m / 10), NatToDecimal(n / 10);
      assert s == a + [DigitChar(m % 10)] == b + [DigitChar(n % 10)];
      assert |a| == |b|;
      assert a == s[..|s| - 1] == b;
      DigitCharInjective(m % 10, n % 10);
      NatToDecimalInjective(m / 10, n / 10);
    }
  }

  /** Python's `p in s`. */
  predicate Contains(s: string, p: string)
    decreases |s|
  {
    if |s| < |p| then false else s[..|p|] == p || Contains(s[1..], p)
  }

  /** s.replace(p, ''): every leftmost non-overlapping occurrence of p removed. */
  function RemoveAll(s: string, p: string): (r: string)
    requires |p| > 0
    ensures |r| <= |s|
    decreases |s|
  {
    if |s| < |p| then s
    else if s[..|p|] == p then RemoveAll(s[|p|..], p)
    else [s[0]] + RemoveAll(s[1..], p)
  }

  /** s.split(sep)[0]: the part of s before the first occurrence of sep. */
  function BeforeFirst(s: string, sep: string): (r: string)
    requires |sep| > 0
    ensures |r| <= |s|
    decreases |s|
  {
    if |s| < |sep| then s
    else if s[..|sep|] == sep then ""
    else [s[0]] + BeforeFirst(s[1..], sep)
  }

  /** A string without any occurrence of p is left alone by s.replace(p, ''). */
  lemma {:induction false} RemoveAllAbsent(s: string, p: string)
    requires |p| > 0 && !Contains(s, p)
    ensures RemoveAll(s, p) == s
    decreases |s|
  {
    if |s| >= |p| {
      RemoveAllAbsent(s[1..], p);
      assert [s[0]] + s[1..] == s;
    }
  }

  /** An occurrence of p + q is an occurrence of p. */
  lemma {:induction false} ContainsLonger(s: string, p: string, q: string)
    requires Contains(s, p + q)
    ensures Contains(s, p)
    decreases |s|
  {
    if s[..|p + q|] == p + q {
      assert s[..|p|] == (p + q)[..|p|] == p;
    } else {
      ContainsLonger(s[1..], p, q);
    }
  }

  /**
   * When no character of a is the first character of p, an occurrence of p
   * in a + b lies entirely in b.
   */
  lemma {:induction false} ContainsSkipsHead(a: string, b: string, p: string)
    requires |p| > 0 && Contains(a + b, p)
    requires forall k :: 0 <= k < |a| ==> a[k] != p[0]
    ensures Contains(b, p)
    decreases |a|
  {
    if |a| > 0 {
      var s := a + b;
      assert s[0] == a[0] != p[0];
      assert s[..|p|] != p;
      assert Contains(s[1..], p);
      assert s[1..] == a[1..] + b;
      ContainsSkipsHead(a[1..], b, p);
    } else {
      assert a + b == b;
    }
  }
}
