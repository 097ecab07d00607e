/** The string operations the application uses: JavaScript's relational
    comparison of strings, `includes`, `startsWith`, `toLowerCase`,
    `Number.prototype.toString` and `padStart`. */
module Strings {

  /** JavaScript's `a < b` on strings: lexicographic order of characters,
      a proper prefix coming first. */
  predicate LexLess(a: string, b: string)
    decreases |a|
  {
    if |a| == 0 then |b| > 0
    else if |b| == 0 then false
    else if a[0] != b[0] then a[0] < b[0]
    else LexLess(a[1..], b[1..])
  }

  lemma {:induction false} LexIrreflexive(a: string)
    ensures !LexLess(a, a)
    decreases |a|
  {
    if |a| > 0 {
      LexIrreflexive(a[1..]);
    }
  }

  lemma {:induction false} LexAsymmetric(a: string, b: string)
    ensures LexLess(a, b) ==> !LexLess(b, a)
    decreases |a|
  {
    if |a| > 0 && |b| > 0 && a[0] == b[0] {
      LexAsymmetric(a[1..], b[1..]);
    }
  }

  lemma {:induction false} LexTransitive(a: string, b: string, c: string)
    ensures LexLess(a, b) && LexLess(b, c) ==> LexLess(a, c)
    decreases |a|
  {
    if |a| > 0 && |b| > 0 && |c| > 0 && a[0] == b[0] && b[0] == c[0] {
      LexTransitive(a[1..], b[1..], c[1..]);
    }
  }

  /** Two different strings are ordered one way or the other. */
  lemma {:induction false} LexTotal(a: string, b: string)
    ensures a == b || LexLess(a, b) || LexLess(b, a)
    decreases |a|
  {
    if |a| > 0 && |b| > 0 && a[0] == b[0] {
      LexTotal(a[1..], b[1..]);
      if a[1..] == b[1..] {
        assert a == [a[0]] + a[1..] && b == [b[0]] + b[1..];
      }
    }
  }

  /** "Not less" is transitive too. */
  lemma LexNotLessTransitive(a: string, b: string, c: string)
    ensures !LexLess(a, b) && !LexLess(b, c) ==> !LexLess(a, c)
  {
    LexTotal(a, b);
    LexTotal(b, c);
    LexTransitive(c, b, a);
    LexAsymmetric(a, c);
    LexTransitive(a, c, b);
    LexTransitive(b, a, c);
  }

  /** The first position where two strings differ decides their order. */
  lemma {:induction false} LexLessAt(a: string, b: string, i: nat)
    requires i < |a| && i < |b|
    requires a[..i] == b[..i]
    requires a[i] < b[i]
    ensures LexLess(a, b)
    decreases i
  {
    if i > 0 {
      assert a[0] == a[..i][0] == b[..i][0] == b[0];
      assert a[1..][..i - 1] == a[..i][1..] == b[..i][1..] == b[1..][..i - 1];
      LexLessAt(a[1..], b[1..], i - 1);
    }
  }

  /** `s.startsWith(p)`. */
  predicate StartsWith(s: string, p: string) {
    p <= s
  }

  /** `s.includes(t)`: `t` occurs in `s` at some position. */
  predicate Contains(s: string, t: string)
    decreases |s|
  {
    t <= s || (|s| > 0 && Contains(s[1..], t))
  }

  /** `t` occurs in `s` starting at position `i`. */
  predicate OccursAt(s: string, t: string, i: int) {
    0 <= i <= |s| - |t| && s[i..i + |t|] == t
  }

  /** An occurrence `Contains` reports is a real substring of `s`. */
  lemma {:induction false} ContainsSound(s: string, t: string)
    requires Contains(s, t)
    ensures exists i :: OccursAt(s, t, i)
    decreases |s|
  {
    if t <= s {
      assert s[0..|t|] == t;
      assert OccursAt(s, t, 0);
    } else {
      ContainsSound(s[1..], t);
      var i :| OccursAt(s[1..], t, i);
      assert s[i + 1..i + 1 + |t|] == s[1..][i..i + |t|];
      assert OccursAt(s, t, i + 1);
    }
  }

  /** Every substring occurrence is found by `Contains`. */
  lemma {:induction false} ContainsComplete(s: string, t: string, i: int)
    requires OccursAt(s, t, i)
    ensures Contains(s, t)
    decreases i
  {
    if i == 0 {
      assert s[..|t|] == t;
    } else {
      assert s[1..][i - 1..i - 1 + |t|] == s[i..i + |t|];
      ContainsComplete(s[1..], t, i - 1);
    }
  }

  /** ASCII upper-case letters map to lower case; every other character is
      kept. */
  function LowerChar(c: char): (r: char)
    ensures 'A' <= c <= 'Z' ==> 'a' <= r <= 'z' && r as int - c as int == 32
    ensures !('A' <= c <= 'Z') ==> r == c
  {
    if 'A' <= c <= 'Z' then (c as int + 32) as char else c
  }

  /** `s.toLowerCase()` restricted to ASCII letters. */
  function Lower(s: string): (r: string)
    ensures |r| == |s|
    ensures forall i :: 0 <= i < |s| ==> r[i] == LowerChar(s[i])
  {
    seq(|s|, i requires 0 <= i < |s| => LowerChar(s[i]))
  }

  /** Lower-casing twice is lower-casing once. */
  lemma LowerIdempotent(s: string)
    ensures Lower(Lower(s)) == Lower(s)
  {
  }

  /** `\d` in a regular expression: an ASCII digit. */
  predicate IsDigit(c: char) {
    '0' <= c <= '9'
  }

  function DigitChar(d: nat): (c: char)
    requires d < 10
    ensures IsDigit(c) && c as int - '0' as int == d
  {
    ('0' as int + d) as char
  }

  function DigitValue(c: char): int {
    c as int - '0' as int
  }

  /** The number a string of decimal digits spells, read left to right. */
  function DigitsValue(s: string): int
    decreases |s|
  {
    if |s| == 0 then 0 else 10 * DigitsValue(s[..|s| - 1]) + DigitValue(s[|s| - 1])
  }

  /** `n.toString()` for a non-negative integer: a non-empty run of decimal
      digits; `DecimalStringSpells` says which. */
  function DecimalString(n: nat): (r: string)
    ensures |r| >= 1
    ensures forall i :: 0 <= i < |r| ==> IsDigit(r[i])
    decreases n
  {
    if n < 10 then [DigitChar(n)] else DecimalString(n / 10) + [DigitChar(n % 10)]
  }

  /** The digits of `n.toString()` spell `n`, and start with a zero only for
      zero itself. */
  lemma {:induction false} DecimalStringSpells(n: nat)
    ensures DigitsValue(DecimalString(n)) == n
    ensures DecimalString(n)[0] == '0' <==> n == 0
    decreases n
  {
    if n >= 10 {
      var front := DecimalString(n / 10);
      var r := DecimalString(n);
      DecimalStringSpells(n / 10);
      assert r == front + [DigitChar(n % 10)];
      assert r[..|r| - 1] == front;
      assert r[0] == front[0];
    }
  }

  /** `s.padStart(width, fill)`: prefix copies of `fill` up to `width`
      characters. */
  function PadStart(s: string, width: nat, fill: char): (r: string)
    ensures |s| >= width ==> r == s
    ensures |s| < width ==> |r| == width && r[width - |s|..] == s
    ensures forall i :: 0 <= i < |r| - |s| ==> r[i] == fill
    decreases width - |s|
  {
    if |s| >= width then s else PadStart([fill] + s, width, fill)
  }

  /** `n.toString().padStart(2, '0')` for `n < 100` is the two digits of `n`. */
  lemma TwoDigits(n: nat)
    requires n < 100
    ensures PadStart(DecimalString(n), 2, '0') == [DigitChar(n / 10), DigitChar(n % 10)]
  {
    if n < 10 {
      assert DecimalString(n) == [DigitChar(n)];
      assert PadStart([DigitChar(n)], 2, '0') == PadStart(['0', DigitChar(n)], 2, '0');
      assert n / 10 == 0 && n % 10 == n;
    } else {
      assert DecimalString(n / 10) == [DigitChar(n / 10)];
      assert |DecimalString(n)| == 2;
    }
  }
}
