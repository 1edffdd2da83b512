/**
 * The two pieces of Python string behaviour the visualizer relies on:
 * the `'%05d' % n` conversion used to number frame files, and the
 * ordering `<` / `>` on `str` used by the ordered depth-first search.
 */
module PyFormat {

  /** The decimal digit character for `d`. */
  function DigitChar(d: nat): (c: char)
    requires d < 10
    ensures '0' <= c <= '9'
  {
    (('0' as int) + d) as char
  }

  /** The value of a decimal digit character (0 for any other character). */
  function DigitValue(c: char): (d: nat)
    ensures d < 10
  {
    if '0' <= c <= '9' then (c as int) - ('0' as int) else 0
  }

  predicate IsDigits(s: string)
  {
    forall i :: 0 <= i < |s| ==> '0' <= s[i] <= '9'
  }

  /** The shortest decimal representation of `n`, as `str(n)` gives it. */
  function Digits(n: nat): (r: string)
    ensures |r| >= 1 && IsDigits(r)
  {
    if n < 10 then [DigitChar(n)] else Digits(n / 10) + [DigitChar(n % 10)]
  }

  /** Left-pads `s` with '0' up to `width` characters; a longer `s` is kept whole. */
  function ZeroPad(s: string, width: nat): (r: string)
    ensures |r| == if |s| >= width then |s| else width
    ensures IsDigits(s) ==> IsDigits(r)
  {
    if |s| >= width then s else Zeros(width - |s|) + s
  }

  function Zeros(k: nat): string
  {
    seq(k, _ => '0')
  }

  /**
   * Python's `'%05d' % n`: at least five characters, zero-padded; a
   * negative number keeps its sign in front of four padded digits.
   */
  function Format05d(n: int): string
  {
    if n >= 0 then ZeroPad(Digits(n), 5) else "-" + ZeroPad(Digits(-n), 4)
  }

  /** The number a string of decimal digits denotes (most significant first). */
  function ParseDigits(s: string): int
  {
    if s == [] then 0 else ParseDigits(s[..|s| - 1]) * 10 + DigitValue(s[|s| - 1])
  }

  /** The inverse of `Format05d`: reads the sign and the digits back. */
  function Parse05d(s: string): int
  {
    if |s| > 0 && s[0] == '-' then -ParseDigits(s[1..]) else ParseDigits(s)
  }

  lemma {:induction false} ParseDigitsOfDigits(n: nat)
    ensures ParseDigits(Digits(n)) == n
  {
    if n >= 10 {
      var d, e := Digits(n), Digits(n / 10);
      assert d == e + [DigitChar(n % 10)];
      assert d[..|d| - 1] == e;
      ParseDigitsOfDigits(n / 10);
    }
  }

  lemma {:induction false} ParseDigitsLeadingZeros(k: nat, s: string)
    ensures ParseDigits(Zeros(k) + s) == ParseDigits(s)
  {
    if s == [] {
      assert Zeros(k) + s == Zeros(k);
      ParseDigitsOfZeros(k);
    } else {
      var t := s[..|s| - 1];
      assert (Zeros(k) + s)[..|Zeros(k) + s| - 1] == Zeros(k) + t;
      ParseDigitsLeadingZeros(k, t);
    }
  }

  lemma {:induction false} ParseDigitsOfZeros(k: nat)
    ensures ParseDigits(Zeros(k)) == 0
  {
    if k > 0 {
      assert Zeros(k)[..k - 1] == Zeros(k - 1);
      ParseDigitsOfZeros(k - 1);
    }
  }

  /** `str(n)` has at most five digits exactly when n is at most 99999. */
  lemma {:induction false} DigitsWidth(n: nat)
    ensures |Digits(n)| <= 5 <==> n <= 99999
  {
    DigitsWidthAt(n, 5);
  }

  lemma {:induction false} DigitsWidthAt(n: nat, w: nat)
    requires w >= 1
    ensures |Digits(n)| <= w <==> n < Pow10(w)
  {
    assert Pow10(w) == 10 * Pow10(w - 1) && Pow10(w - 1) >= 1;
    if n >= 10 && w > 1 {
      DigitsWidthAt(n / 10, w - 1);
      var p := Pow10(w - 1);
      assert n / 10 < p <==> n < 10 * p;
    }
  }

  function Pow10(w: nat): (p: nat)
    ensures p >= 1
  {
    if w == 0 then 1 else 10 * Pow10(w - 1)
  }

  /**
   * For a counter in 0..99999, `'%05d' % count` is exactly five decimal
   * digits; beyond that it is `str(count)`, wider than five characters.
   */
  lemma Format05dWidth(n: int)
    requires n >= 0
    ensures n <= 99999 ==> |Format05d(n)| == 5 && IsDigits(Format05d(n))
    ensures n > 99999 ==> Format05d(n) == Digits(n) && |Format05d(n)| > 5
  {
    DigitsWidth(n);
  }

  /** Reading a formatted counter back gives the counter: no two counters share a name. */
  lemma Format05dRoundTrip(n: int)
    ensures Parse05d(Format05d(n)) == n
  {
    var m := if n >= 0 then n else -n;
    var w := if n >= 0 then 5 else 4;
    var d := Digits(m);
    ParseDigitsOfDigits(m);
    if |d| < w {
      ParseDigitsLeadingZeros(w - |d|, d);
      assert ZeroPad(d, w)[0] == '0';
    } else {
      assert ZeroPad(d, w)[0] == d[0];
    }
    if n < 0 {
      assert Format05d(n)[1..] == ZeroPad(d, w);
    }
  }

  lemma Format05dInjective(a: int, b: int)
    requires Format05d(a) == Format05d(b)
    ensures a == b
  {
    Format05dRoundTrip(a);
    Format05dRoundTrip(b);
  }

  /**
   * Python 2's `a < b` on `str`: lexicographic on characters, with a
   * proper prefix ordered before the longer string.
   */
  predicate StrLess(a: string, b: string)
  {
    if b == [] then false
    else if a == [] then true
    else if a[0] != b[0] then a[0] < b[0]
    else StrLess(a[1..], b[1..])
  }

  /** `a < b` and `b < a` never hold together, and no string is below itself. */
  lemma {:induction false} StrLessAsymmetric(a: string, b: string)
    ensures !(StrLess(a, b) && StrLess(b, a))
    ensures !StrLess(a, a)
  {
    if a != [] && b != [] && a[0] == b[0] {
      StrLessAsymmetric(a[1..], b[1..]);
    }
    if a != [] {
      StrLessAsymmetric(a[1..], a[1..]);
    }
  }

  /** Any two different strings are ordered one way or the other. */
  lemma {:induction false} StrLessTotal(a: string, b: string)
    requires a != b
    ensures StrLess(a, b) || StrLess(b, a)
  {
    if a != [] && b != [] && a[0] == b[0] {
      assert a == [a[0]] + a[1..] && b == [b[0]] + b[1..];
      StrLessTotal(a[1..], b[1..]);
    }
  }
}
