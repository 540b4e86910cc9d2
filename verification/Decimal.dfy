/** Decimal text of unsigned 64-bit words, printed plain or zero-padded, and read back. */
module Decimal {
  import opened Words
  import opened Wrappers

  predicate IsDigit(c: char) {
    '0' <= c <= '9'
  }

  function DigitOf(d: nat): (c: char)
    requires d < 10
    ensures IsDigit(c) && DigitValue(c) == d
  {
    '0' + d as char
  }

  function DigitValue(c: char): (d: nat)
    requires IsDigit(c)
    ensures d < 10
  {
    c as int - '0' as int
  }

  ghost predicate AllDigits(s: string) {
    forall i :: 0 <= i < |s| ==> IsDigit(s[i])
  }

  predicate DigitsOnly(s: string)
    ensures DigitsOnly(s) <==> AllDigits(s)
  {
    s == [] || (IsDigit(s[0]) && DigitsOnly(s[1..]))
  }

  function Value(s: string): nat
    requires AllDigits(s)
  {
    if s == [] then 0 else 10 * Value(s[..|s| - 1]) + DigitValue(s[|s| - 1])
  }

  /** The shortest decimal text of `n`. */
  function Print(n: nat): (s: string)
    ensures s != [] && AllDigits(s) && Value(s) == n
  {
    if n < 10 then [DigitOf(n)] else Print(n / 10) + [DigitOf(n % 10)]
  }

  /** The last `width` decimal digits of `n`, with leading zeros. */
  function Padded(n: nat, width: nat): (s: string)
    ensures |s| == width && AllDigits(s)
  {
    if width == 0 then [] else Padded(n / 10, width - 1) + [DigitOf(n % 10)]
  }

  lemma {:induction false} PaddedZeros(width: nat)
    ensures Padded(0, width) == seq(width, _ => '0')
  {
    if width > 0 {
      PaddedZeros(width - 1);
    }
  }

  lemma PaddedSpelled()
    ensures Padded(0, 20) == "00000000000000000000"
    ensures Padded(42, 20) == "00000000000000000042"
  {
    PaddedZeros(20);
    PaddedZeros(18);
    assert Padded(42, 20) == Padded(4, 19) + ['2'] && Padded(4, 19) == Padded(0, 18) + ['4'];
  }

  function Pow10(k: nat): nat {
    if k == 0 then 1 else 10 * Pow10(k - 1)
  }

  lemma {:induction false} PaddedValue(n: nat, width: nat)
    requires n < Pow10(width)
    ensures Value(Padded(n, width)) == n
    decreases width
  {
    if width > 0 {
      PaddedValue(n / 10, width - 1);
      var s := Padded(n, width);
      assert s[..|s| - 1] == Padded(n / 10, width - 1);
    }
  }

  lemma TwentyDigitsHoldAWord()
    ensures TWO_64 <= Pow10(20)
  {
    assert Pow10(5) == 100000;
    assert Pow10(10) == 10000000000;
    assert Pow10(15) == 1000000000000000;
  }

  /** The text after an optional leading plus, which the standard parser accepts. */
  function Unsigned(s: string): string {
    if |s| > 1 && s[0] == '+' then s[1..] else s
  }

  /** The standard parse of a word: digits only, at least one, no overflow. */
  function ParseU64(s: string): (r: Option<U64>)
    ensures r.Some? <==> Unsigned(s) != [] && AllDigits(Unsigned(s)) && Value(Unsigned(s)) < TWO_64
    ensures r.Some? ==> r.value == Value(Unsigned(s))
  {
    var digits := Unsigned(s);
    if digits != [] && DigitsOnly(digits) && Value(digits) < TWO_64 then Some(Value(digits)) else None
  }

  lemma ParsePrint(n: U64)
    ensures ParseU64(Print(n)) == Some(n)
  {
    assert Print(n)[0] != '+';
    assert Unsigned(Print(n)) == Print(n);
  }

  lemma ParsePadded(n: U64)
    ensures ParseU64(Padded(n, 20)) == Some(n)
  {
    TwentyDigitsHoldAWord();
    PaddedValue(n, 20);
    assert Padded(n, 20)[0] != '+';
    assert Unsigned(Padded(n, 20)) == Padded(n, 20);
  }

  // ---------------------------------------------------------------------------------------------
  // Lexical order
  // ---------------------------------------------------------------------------------------------

  /** `a` and `b` agree up to `k`, where `a` ends first or has the smaller character. */
  predicate SplitAt(a: string, b: string, k: nat) {
    && k <= |a| && k <= |b| && a[..k] == b[..k]
    && ((k == |a| && k < |b|) || (k < |a| && k < |b| && a[k] < b[k]))
  }

  ghost predicate LexLess(a: string, b: string) {
    exists k: nat :: SplitAt(a, b, k)
  }

  /** Between equally long texts, lexical order is decided by the front, and then by the last character. */
  lemma LexByLast(a: string, b: string)
    requires |a| == |b| > 0
    ensures var n := |a| - 1;
            LexLess(a, b) <==> LexLess(a[..n], b[..n]) || (a[..n] == b[..n] && a[n] < b[n])
  {
    var n := |a| - 1;
    if k: nat :| SplitAt(a, b, k) {
      if k < n {
        assert a[..n][..k] == a[..k] && b[..n][..k] == b[..k];
        assert SplitAt(a[..n], b[..n], k);
      }
    }
    if k: nat :| SplitAt(a[..n], b[..n], k) {
      assert a[..n][..k] == a[..k] && b[..n][..k] == b[..k];
      assert SplitAt(a, b, k);
    }
    if a[..n] == b[..n] && a[n] < b[n] {
      assert SplitAt(a, b, n);
    }
  }

  lemma {:induction false} LexIsNumeric(a: string, b: string)
    requires |a| == |b| && AllDigits(a) && AllDigits(b)
    ensures LexLess(a, b) <==> Value(a) < Value(b)
    ensures a == b <==> Value(a) == Value(b)
    decreases |a|
  {
    if a != [] {
      var n := |a| - 1;
      LexIsNumeric(a[..n], b[..n]);
      LexByLast(a, b);
      assert a == a[..n] + [a[n]] && b == b[..n] + [b[n]];
      assert DigitValue(a[n]) < DigitValue(b[n]) <==> a[n] < b[n];
    } else {
      assert !LexLess(a, b);
    }
  }

  lemma LexUnderAffixes(prefix: string, a: string, b: string, suffix: string)
    requires |a| == |b|
    ensures LexLess(prefix + a + suffix, prefix + b + suffix) <==> LexLess(a, b)
  {
    var x, y := prefix + a + suffix, prefix + b + suffix;
    if k: nat :| SplitAt(a, b, k) {
      assert x[..|prefix| + k] == prefix + a[..k] && y[..|prefix| + k] == prefix + b[..k];
      assert SplitAt(x, y, |prefix| + k);
    }
    if k: nat :| SplitAt(x, y, k) {
      assert x[k] < y[k];
      assert |prefix| <= k < |prefix| + |a|;
      assert a[..k - |prefix|] == x[..k][|prefix|..] && b[..k - |prefix|] == y[..k][|prefix|..];
      assert SplitAt(a, b, k - |prefix|);
    }
  }
}
