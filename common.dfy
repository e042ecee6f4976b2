/** Small helper datatypes and functions shared by the models of every exercise. */
module Common {

  /** A value that may be absent: Python's `None` or an object. */
  datatype Option<T> = None | Some(value: T)

  /** The result of an operation that either completes or raises the given exception. */
  datatype Outcome<E> = Pass | Fail(error: E)

  /** The result of an operation that returns a value or raises the given exception. */
  datatype Result<T, E> = Ok(value: T) | Err(error: E)

  function Abs(x: int): nat
  {
    if x < 0 then -x else x
  }

  /** No element of the sequence occurs twice. */
  predicate Distinct<T(==)>(s: seq<T>)
  {
    forall i, j :: 0 <= i < j < |s| ==> s[i] != s[j]
  }

  /** The decimal digit character for d. */
  function DigitChar(d: nat): (c: char)
    requires d < 10
    ensures '0' <= c <= '9'
  {
    "0123456789"[d]
  }

  /** The value of a decimal digit character. */
  function DigitValue(c: char): nat
    requires '0' <= c <= '9'
  {
    (c as int - '0' as int) as nat
  }

  lemma DigitRoundTrip(d: nat)
    requires d < 10
    ensures DigitValue(DigitChar(d)) == d
  {
  }

  predicate IsDigits(s: string)
  {
    forall i :: 0 <= i < |s| ==> '0' <= s[i] <= '9'
  }

  /** Python's `str(n)` for a non-negative integer: decimal, no leading zeros. */
  function NatToString(n: nat): (s: string)
    ensures 1 <= |s| && IsDigits(s)
    ensures n < 10 <==> |s| == 1
  {
    if n < 10 then [DigitChar(n)] else NatToString(n / 10) + [DigitChar(n % 10)]
  }

  /** The value of a string of decimal digits (leading zeros allowed). */
  function DigitsValue(s: string): nat
    requires IsDigits(s)
  {
    if s == [] then 0 else 10 * DigitsValue(s[..|s| - 1]) + DigitValue(s[|s| - 1])
  }

  lemma {:induction false} NatToStringRoundTrip(n: nat)
    ensures DigitsValue(NatToString(n)) == n
  {
    var s := NatToString(n);
    if n < 10 {
      DigitRoundTrip(n);
    } else {
      assert s[..|s| - 1] == NatToString(n / 10);
      NatToStringRoundTrip(n / 10);
      DigitRoundTrip(n % 10);
    }
  }

  /** Python's `f"{n:06d}"`-style padding: zeros prepended until the text is `width` long. */
  function ZeroPad(s: string, width: nat): (r: string)
    ensures |s| >= width ==> r == s
    ensures |s| < width ==> |r| == width
    ensures IsDigits(s) ==> IsDigits(r)
    decreases width - |s|
  {
    if |s| >= width then s else ZeroPad("0" + s, width)
  }

  lemma {:induction false} LeadingZeroValue(s: string)
    requires IsDigits(s)
    ensures DigitsValue("0" + s) == DigitsValue(s)
    decreases |s|
  {
    if s != [] {
      var t := "0" + s;
      assert t[..|t| - 1] == "0" + s[..|s| - 1];
      LeadingZeroValue(s[..|s| - 1]);
    }
  }

  lemma {:induction false} ZeroPadValue(s: string, width: nat)
    requires IsDigits(s)
    ensures DigitsValue(ZeroPad(s, width)) == DigitsValue(s)
    decreases width - |s|
  {
    if |s| < width {
      LeadingZeroValue(s);
      ZeroPadValue("0" + s, width);
    }
  }

  /** Zero-padding the decimal form of n keeps its value, so distinct numbers keep distinct texts. */
  lemma PaddedNatInjective(m: nat, n: nat, width: nat)
    requires ZeroPad(NatToString(m), width) == ZeroPad(NatToString(n), width)
    ensures m == n
  {
    ZeroPadValue(NatToString(m), width);
    ZeroPadValue(NatToString(n), width);
    NatToStringRoundTrip(m);
    NatToStringRoundTrip(n);
  }

  /** Euclidean division by n leaves a unique remainder. */
  lemma ModUnique(x: int, n: int, q: int, r: int)
    requires n > 0 && 0 <= r < n && x == n * q + r
    ensures x % n == r
  {
    var d := q - x / n;
    assert x == n * (x / n) + x % n;
    assert n * q - n * (x / n) == n * d;
    assert n * d == x % n - r;
    MulSign(n, d);
  }

  lemma MulSign(n: int, d: int)
    requires n > 0
    ensures d > 0 ==> n * d >= n
    ensures d < 0 ==> n * d <= -n
  {
  }

  /** Counting up by one modulo n wraps from n - 1 to 0. */
  lemma ModNext(y: int, n: int)
    requires n > 0
    ensures (y + 1) % n == if y % n + 1 == n then 0 else y % n + 1
  {
    assert y == n * (y / n) + y % n;
    if y % n + 1 == n {
      ModUnique(y + 1, n, y / n + 1, 0);
    } else {
      ModUnique(y + 1, n, y / n, y % n + 1);
    }
  }

  /** Reducing modulo n before adding does not change the sum modulo n. */
  lemma {:induction false} ModAdd(a: int, b: nat, n: int)
    requires n > 0
    ensures (a % n + b) % n == (a + b) % n
  {
    if b == 0 {
      assert a == n * (a / n) + a % n;
      ModUnique(a % n, n, 0, a % n);
    } else {
      ModAdd(a, b - 1, n);
      ModNext(a % n + b - 1, n);
      ModNext(a + b - 1, n);
    }
  }
}
