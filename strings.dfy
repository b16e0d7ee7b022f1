/**
 * The few JavaScript string operations the date and filter code relies on:
 * `String(n)` for integers, `padStart`, `split`, `Number` on digit strings,
 * and the relational comparison `a < b` of two strings.
 */
module Strings {
  import opened Wrappers

  predicate IsDigit(c: char) {
    '0' <= c <= '9'
  }

  predicate AllDigits(s: string) {
    forall i :: 0 <= i < |s| ==> IsDigit(s[i])
  }

  function DigitChar(k: nat): (c: char)
    requires k < 10
    ensures IsDigit(c)
  {
    (48 + k) as char
  }

  function DigitValue(c: char): (k: nat)
    requires IsDigit(c)
    ensures k < 10 && DigitChar(k) == c
  {
    (c as int) - 48
  }

  function Pow10(w: nat): (p: nat)
    ensures p >= 1
  {
    if w == 0 then 1 else 10 * Pow10(w - 1)
  }

  /** `String(n)` for a non-negative integer: its decimal digits without leading zeros. */
  function NatToString(n: nat): (s: string)
    ensures |s| >= 1 && AllDigits(s)
  {
    if n < 10 then [DigitChar(n)] else NatToString(n / 10) + [DigitChar(n % 10)]
  }

  /** `String(n)` has no leading zero, except for 0 itself. */
  lemma {:induction false} NatToStringNoLeadingZero(n: nat)
    ensures NatToString(n)[0] == '0' <==> n == 0
  {
    if n >= 10 {
      NatToStringNoLeadingZero(n / 10);
    }
  }

  /** `String(i)` for any integer: a minus sign before the digits of a negative value. */
  function IntToString(i: int): (s: string)
    ensures |s| >= 1 && (s[0] == '-' <==> i < 0)
  {
    if i < 0 then "-" + NatToString(-i) else NatToString(i)
  }

  /** The last `w` decimal digits of `n`, zero-padded to exactly `w` characters. */
  function Digits(n: nat, w: nat): (s: string)
    ensures |s| == w && AllDigits(s)
  {
    if w == 0 then [] else Digits(n / 10, w - 1) + [DigitChar(n % 10)]
  }

  function Repeat(c: char, k: nat): (s: string)
    ensures |s| == k && forall i :: 0 <= i < k ==> s[i] == c
  {
    if k == 0 then [] else [c] + Repeat(c, k - 1)
  }

  /** `s.padStart(width, pad)` with a one-character pad string. */
  function PadStart(s: string, width: nat, pad: char): (r: string)
    ensures |r| == if |s| >= width then |s| else width
    ensures r[|r| - |s|..] == s
    ensures forall i :: 0 <= i < |r| - |s| ==> r[i] == pad
  {
    if |s| >= width then s else Repeat(pad, width - |s|) + s
  }

  /**
   * `Number(s)` for strings made of decimal digits, the only strings the
   * date code hands it; `None` stands for NaN. `Number("")` is 0.
   */
  function Number(s: string): (r: Option<nat>)
    ensures r.Some? <==> AllDigits(s)
  {
    if s == [] then Some(0)
    else
      var init := s[..|s| - 1];
      assert forall i :: 0 <= i < |init| ==> init[i] == s[i];
      match Number(init)
      case None => None
      case Some(v) => if IsDigit(s[|s| - 1]) then Some(10 * v + DigitValue(s[|s| - 1])) else None
  }

  /** `s.split(sep)` for a one-character separator. */
  function Split(s: string, sep: char): (parts: seq<string>)
    ensures |parts| >= 1
    ensures forall k :: 0 <= k < |parts| ==> sep !in parts[k]
    ensures sep !in s ==> parts == [s]
  {
    if s == [] then [""]
    else
      var rest := Split(s[1..], sep);
      assert s == [s[0]] + s[1..];
      if s[0] == sep then [""] + rest else [[s[0]] + rest[0]] + rest[1..]
  }

  /** The JavaScript relation `a < b` on strings: lexicographic by character, a proper prefix is smaller. */
  function LexLess(a: string, b: string): (r: bool)
    ensures r ==> a != b
    ensures |a| < |b| && a == b[..|a|] ==> r
  {
    if b == [] then false
    else if a == [] then true
    else if a[0] != b[0] then a[0] < b[0]
    else LexLess(a[1..], b[1..])
  }

  /** The JavaScript relation `a <= b` on strings, defined as `!(b < a)`. */
  predicate LexLe(a: string, b: string) {
    !LexLess(b, a)
  }

  lemma {:induction false} LexLessIrreflexive(a: string)
    ensures !LexLess(a, a)
  {
    if a != [] {
      LexLessIrreflexive(a[1..]);
    }
  }

  /** Exactly one of `a < b`, `a == b`, `b < a` holds; with LexTransitive, string `<` is a strict total order. */
  lemma {:induction false} LexTrichotomy(a: string, b: string)
    ensures LexLess(a, b) || a == b || LexLess(b, a)
    ensures !(LexLess(a, b) && LexLess(b, a))
    ensures LexLe(a, b) <==> a == b || LexLess(a, b)
  {
    if a == [] || b == [] {
      LexLessIrreflexive(a);
    } else if a[0] == b[0] {
      LexTrichotomy(a[1..], b[1..]);
      if a[1..] == b[1..] {
        assert a == [a[0]] + a[1..] && b == [b[0]] + b[1..];
      }
    }
  }

  /** String `<` is transitive. */
  lemma {:induction false} LexTransitive(a: string, b: string, c: string)
    requires LexLess(a, b) && LexLess(b, c)
    ensures LexLess(a, c)
  {
    if a != [] && b != [] && c != [] && a[0] == b[0] && b[0] == c[0] {
      LexTransitive(a[1..], b[1..], c[1..]);
    }
  }

  /** Comparing two concatenations whose first parts have equal length compares the first parts, then the rest. */
  lemma {:induction false} LexLessConcat(a1: string, a2: string, b1: string, b2: string)
    requires |a1| == |b1|
    ensures LexLess(a1 + a2, b1 + b2) <==> LexLess(a1, b1) || (a1 == b1 && LexLess(a2, b2))
  {
    if a1 == [] {
      assert a1 + a2 == a2 && b1 + b2 == b2;
    } else {
      assert (a1 + a2)[0] == a1[0] && (b1 + b2)[0] == b1[0];
      assert (a1 + a2)[1..] == a1[1..] + a2 && (b1 + b2)[1..] == b1[1..] + b2;
      LexLessConcat(a1[1..], a2, b1[1..], b2);
      if a1[0] == b1[0] && a1[1..] == b1[1..] {
        assert a1 == [a1[0]] + a1[1..] && b1 == [b1[0]] + b1[1..];
      }
    }
  }

  /** A number below 10^w read back from its `w` padded digits. */
  lemma {:induction false} NumberOfDigits(n: nat, w: nat)
    requires n < Pow10(w)
    ensures Number(Digits(n, w)) == Some(n)
  {
    if w > 0 {
      var s := Digits(n, w);
      assert s[..|s| - 1] == Digits(n / 10, w - 1);
      NumberOfDigits(n / 10, w - 1);
    }
  }

  /** `Number(String(n)) == n`. */
  lemma {:induction false} NumberOfNatToString(n: nat)
    ensures Number(NatToString(n)) == Some(n)
  {
    var s := NatToString(n);
    if n < 10 {
      assert s[..|s| - 1] == [];
    } else {
      assert s[..|s| - 1] == NatToString(n / 10);
      NumberOfNatToString(n / 10);
    }
  }

  lemma DigitsInjective(n: nat, m: nat, w: nat)
    requires n < Pow10(w) && m < Pow10(w)
    requires Digits(n, w) == Digits(m, w)
    ensures n == m
  {
    NumberOfDigits(n, w);
    NumberOfDigits(m, w);
  }

  /** Padded digit strings of one width compare like the numbers they spell. */
  lemma {:induction false} DigitsOrder(n: nat, m: nat, w: nat)
    requires n < Pow10(w) && m < Pow10(w)
    ensures LexLess(Digits(n, w), Digits(m, w)) <==> n < m
  {
    if w == 0 {
    } else {
      DigitsOrder(n / 10, m / 10, w - 1);
      LexLessConcat(Digits(n / 10, w - 1), [DigitChar(n % 10)], Digits(m / 10, w - 1), [DigitChar(m % 10)]);
      if Digits(n / 10, w - 1) == Digits(m / 10, w - 1) {
        DigitsInjective(n / 10, m / 10, w - 1);
      }
      assert LexLess([DigitChar(n % 10)], [DigitChar(m % 10)]) <==> n % 10 < m % 10;
    }
  }

  /** `String(n)` of a number with exactly `w` digits is its `w`-digit padded form. */
  lemma {:induction false} NatToStringIsDigits(n: nat, w: nat)
    requires 1 <= w && n < Pow10(w) && (w == 1 || Pow10(w - 1) <= n)
    ensures NatToString(n) == Digits(n, w)
  {
    if w == 1 {
      assert Digits(n, 1) == Digits(n / 10, 0) + [DigitChar(n % 10)];
    } else {
      NatToStringIsDigits(n / 10, w - 1);
    }
  }

  /** `String(n).padStart(2, "0")` for 0 <= n < 100 is the two-digit form of n. */
  lemma PadTwoDigits(n: nat)
    requires n < 100
    ensures PadStart(NatToString(n), 2, '0') == Digits(n, 2)
  {
    if n < 10 {
      NatToStringIsDigits(n, 1);
      assert Digits(n, 2) == Digits(0, 1) + [DigitChar(n)];
    } else {
      NatToStringIsDigits(n, 2);
    }
  }

  lemma {:induction false} SplitWithoutSeparator(a: string, sep: char)
    requires sep !in a
    ensures Split(a, sep) == [a]
  {
    if a != [] {
      SplitWithoutSeparator(a[1..], sep);
      assert a == [a[0]] + a[1..];
    }
  }

  /** Splitting at the first separator: the part before it, then the parts of the rest. */
  lemma {:induction false} SplitAtSeparator(a: string, b: string, sep: char)
    requires sep !in a
    ensures Split(a + [sep] + b, sep) == [a] + Split(b, sep)
  {
    var s := a + [sep] + b;
    if a == [] {
      assert s[1..] == b;
    } else {
      assert s[1..] == a[1..] + [sep] + b;
      SplitAtSeparator(a[1..], b, sep);
      assert a == [a[0]] + a[1..];
    }
  }

  /** Two concatenations with equally long tails are equal only when heads and tails are. */
  lemma ConcatCancel(x1: string, t1: string, x2: string, t2: string)
    requires x1 + t1 == x2 + t2 && |t1| == |t2|
    ensures x1 == x2 && t1 == t2
  {
    assert x1 == (x1 + t1)[..|x1|];
    assert x2 == (x2 + t2)[..|x2|];
    assert t1 == (x1 + t1)[|x1|..];
    assert t2 == (x2 + t2)[|x2|..];
  }

  /** `String` is injective on integers. */
  lemma IntToStringInjective(x: int, y: int)
    requires IntToString(x) == IntToString(y)
    ensures x == y
  {
    if x < 0 || y < 0 {
      NegativeDigits(x, y);
      NumberOfNatToString(-x);
      NumberOfNatToString(-y);
    } else {
      NumberOfNatToString(x);
      NumberOfNatToString(y);
    }
  }

  /** Two integers written alike are both negative if one is, and then their digits agree. */
  lemma NegativeDigits(x: int, y: int)
    requires IntToString(x) == IntToString(y) && (x < 0 || y < 0)
    ensures x < 0 && y < 0 && NatToString(-x) == NatToString(-y)
  {
    var s := IntToString(x);
    assert x < 0 && y < 0;
    assert s == "-" + NatToString(-x) == "-" + NatToString(-y);
    assert s[1..] == NatToString(-x);
  }
}
