/**
 * Time-of-day strings. The application compares "HH:MM" strings with
 * JavaScript's string `>`, which is lexicographic by character code. This
 * module defines that order and proves that on zero-padded 24-hour clock
 * strings it agrees with the order of minutes since midnight.
 */
module TimeText {

  /** JavaScript `a < b` on strings: lexicographic by character code, and a
      proper prefix is smaller than the longer string. */
  predicate StrLess(a: string, b: string)
    ensures StrLess(a, b) ==> a != b
    decreases |a|
  {
    if |a| == 0 then |b| > 0
    else if |b| == 0 then false
    else a[0] < b[0] || (a[0] == b[0] && StrLess(a[1..], b[1..]))
  }

  /** JavaScript `a <= b` on strings. */
  predicate StrLessEq(a: string, b: string) {
    StrLess(a, b) || a == b
  }

  lemma {:induction false} StrLessIrreflexive(a: string)
    ensures !StrLess(a, a)
  {
    if |a| > 0 {
      StrLessIrreflexive(a[1..]);
    }
  }

  lemma {:induction false} StrLessAsymmetric(a: string, b: string)
    requires StrLess(a, b)
    ensures !StrLess(b, a)
  {
    if |a| > 0 && |b| > 0 && a[0] == b[0] {
      StrLessAsymmetric(a[1..], b[1..]);
    }
  }

  lemma {:induction false} StrLessTransitive(a: string, b: string, c: string)
    requires StrLess(a, b) && StrLess(b, c)
    ensures StrLess(a, c)
  {
    if |a| > 0 && a[0] == b[0] && b[0] == c[0] {
      StrLessTransitive(a[1..], b[1..], c[1..]);
    }
  }

  /** String order is total: any two strings are equal or one is smaller. */
  lemma {:induction false} StrLessTotal(a: string, b: string)
    ensures StrLess(a, b) || a == b || StrLess(b, a)
  {
    if |a| > 0 && |b| > 0 && a[0] == b[0] {
      StrLessTotal(a[1..], b[1..]);
      if a[1..] == b[1..] {
        assert a == [a[0]] + a[1..];
        assert b == [b[0]] + b[1..];
      }
    }
  }

  /** Not `b < a` means `a <= b`. */
  lemma NotLessIsLessEq(a: string, b: string)
    requires !StrLess(b, a)
    ensures StrLessEq(a, b)
  {
    StrLessTotal(a, b);
  }

  /** `a <= b < c` gives `a < c`. */
  lemma LessEqThenLess(a: string, b: string, c: string)
    requires StrLessEq(a, b) && StrLess(b, c)
    ensures StrLess(a, c)
  {
    if a != b {
      StrLessTransitive(a, b, c);
    }
  }

  predicate IsDigit(c: char) {
    '0' <= c <= '9'
  }

  function DigitValue(c: char): (v: nat)
    requires IsDigit(c)
    ensures v < 10
  {
    c as int - '0' as int
  }

  function DigitChar(v: nat): (c: char)
    requires v < 10
    ensures IsDigit(c) && DigitValue(c) == v
  {
    ('0' as int + v) as char
  }

  /** A zero-padded 24-hour "HH:MM" string, as `toLocaleTimeString('en-GB',
      {hour: '2-digit', minute: '2-digit'})` produces and the schedule uses. */
  predicate IsClockTime(s: string) {
    |s| == 5 && IsDigit(s[0]) && IsDigit(s[1]) && s[2] == ':' && IsDigit(s[3]) && IsDigit(s[4])
    && 10 * DigitValue(s[0]) + DigitValue(s[1]) < 24
    && 10 * DigitValue(s[3]) + DigitValue(s[4]) < 60
  }

  /** Minutes since midnight of a clock string. */
  function Minutes(s: string): (m: nat)
    requires IsClockTime(s)
    ensures m < 24 * 60
  {
    (10 * DigitValue(s[0]) + DigitValue(s[1])) * 60 + 10 * DigitValue(s[3]) + DigitValue(s[4])
  }

  /** The clock string of a minute of the day: the inverse of Minutes. */
  function ClockText(m: nat): (s: string)
    requires m < 24 * 60
    ensures IsClockTime(s) && Minutes(s) == m
  {
    var h, mm := m / 60, m % 60;
    [DigitChar(h / 10), DigitChar(h % 10), ':', DigitChar(mm / 10), DigitChar(mm % 10)]
  }

  /** Every clock string is the text of its own minute count. */
  lemma ClockTextOfMinutes(s: string)
    requires IsClockTime(s)
    ensures ClockText(Minutes(s)) == s
  {
    var t := ClockText(Minutes(s));
    var h, mm := Minutes(s) / 60, Minutes(s) % 60;
    assert h == 10 * DigitValue(s[0]) + DigitValue(s[1]);
    assert mm == 10 * DigitValue(s[3]) + DigitValue(s[4]);
    assert DigitValue(t[0]) == DigitValue(s[0]) && DigitValue(t[1]) == DigitValue(s[1]);
    assert DigitValue(t[3]) == DigitValue(s[3]) && DigitValue(t[4]) == DigitValue(s[4]);
    assert forall i :: 0 <= i < 5 ==> t[i] == s[i];
  }

  /** Clock strings are equal exactly when they name the same minute. */
  lemma ClockEquality(a: string, b: string)
    requires IsClockTime(a) && IsClockTime(b)
    ensures a == b <==> Minutes(a) == Minutes(b)
  {
    if Minutes(a) == Minutes(b) {
      ClockTextOfMinutes(a);
      ClockTextOfMinutes(b);
    }
  }

  /** The fact the resolver relies on: on clock strings, JavaScript's string
      order is the order of the minutes they name. */
  lemma ClockOrder(a: string, b: string)
    requires IsClockTime(a) && IsClockTime(b)
    ensures StrLess(a, b) <==> Minutes(a) < Minutes(b)
  {
    var a1, b1 := a[1..], b[1..];
    var a2, b2 := a1[1..], b1[1..];
    var a3, b3 := a2[1..], b2[1..];
    var a4, b4 := a3[1..], b3[1..];
    assert a4[1..] == [] && b4[1..] == [];
    assert StrLess(a4, b4) <==> a[4] < b[4];
    assert StrLess(a3, b3) <==> a[3] < b[3] || (a[3] == b[3] && StrLess(a4, b4));
    assert StrLess(a2, b2) <==> StrLess(a3, b3);
    assert StrLess(a1, b1) <==> a[1] < b[1] || (a[1] == b[1] && StrLess(a2, b2));
    assert StrLess(a, b) <==> a[0] < b[0] || (a[0] == b[0] && StrLess(a1, b1));
  }
}
