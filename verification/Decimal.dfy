/** Decimal numerals: reading one the way strconv.Atoi does, and the printer
    with a fixed buffer that numbers the fields and files of a page. */
module Decimal {

  const MAX_INT := 0x7FFF_FFFF_FFFF_FFFF
  const MIN_INT := -0x8000_0000_0000_0000

  function DigitChar(d: nat): char
    requires d < 10
  {
    '0' + d as char
  }

  predicate IsDigit(c: char) {
    '0' <= c <= '9'
  }

  function DigitValue(c: char): nat
    requires IsDigit(c)
  {
    (c - '0') as nat
  }

  /** The digits of n, most significant first; nothing for zero. */
  function Digits(n: int): string {
    if n <= 0 then "" else Digits(n / 10) + [DigitChar(n % 10)]
  }

  /** The numeral of n. */
  function Numeral(n: nat): string {
    if n == 0 then "0" else Digits(n)
  }

  predicate AllDigits(s: string) {
    forall c <- s :: IsDigit(c)
  }

  function Value(s: string): nat
    requires AllDigits(s)
  {
    if s == "" then 0
    else 10 * Value(s[..|s| - 1]) + DigitValue(s[|s| - 1])
  }

  lemma {:induction false} DigitsValue(n: nat)
    ensures AllDigits(Digits(n)) && Value(Digits(n)) == n
  {
    if n > 0 {
      DigitsValue(n / 10);
      assert Digits(n)[..|Digits(n)| - 1] == Digits(n / 10);
    }
  }

  /** Reading undoes printing. */
  lemma NumeralValue(n: nat)
    ensures Numeral(n) != "" && AllDigits(Numeral(n)) && Value(Numeral(n)) == n
  {
    DigitsValue(n);
    if n == 0 {
      assert Numeral(0)[..0] == "";
    }
  }

  lemma NumeralInjective(m: nat, n: nat)
    requires Numeral(m) == Numeral(n)
    ensures m == n
  {
    NumeralValue(m);
    NumeralValue(n);
  }

  function PowerOfTen(k: nat): nat {
    if k == 0 then 1 else 10 * PowerOfTen(k - 1)
  }

  lemma PowerOfTenSum(a: nat, b: nat)
    ensures PowerOfTen(a + b) == PowerOfTen(a) * PowerOfTen(b)
  {
    if a > 0 {
      PowerOfTenSum(a - 1, b);
    }
  }

  lemma {:induction false} DigitsLength(n: nat, k: nat)
    requires n < PowerOfTen(k)
    ensures |Digits(n)| <= k
  {
    if n > 0 {
      assert k > 0;
      DigitsLength(n / 10, k - 1);
    }
  }

  lemma NineteenDigitsAreEnough(n: int)
    requires n <= MAX_INT
    ensures |Digits(n)| <= 19
  {
    assert PowerOfTen(3) == 1000;
    PowerOfTenSum(3, 3);
    PowerOfTenSum(6, 6);
    PowerOfTenSum(12, 6);
    assert PowerOfTen(19) == 10 * PowerOfTen(18);
    if n > 0 { DigitsLength(n, 19); }
  }

  lemma DigitsStep(n: int, written: string)
    requires n > 0
    ensures Digits(n) + written == Digits(n / 10) + ([DigitChar(n % 10)] + written)
  {
  }

  /** The fixed-buffer printer. The buffer has 20 cells and the numeral is written
      from its end; a negative number writes nothing. */
  method Itoa(n: int) returns (r: string)
    requires MIN_INT <= n <= MAX_INT
    ensures r == if n >= 0 then Numeral(n) else ""
  {
    if n == 0 {
      return "0";
    }
    var b := new char[20];
    var i := b.Length;
    var m := n;
    NineteenDigitsAreEnough(n);
    while m > 0
      invariant 0 <= i <= b.Length
      invariant Digits(n) == Digits(m) + b[i..]
      decreases m
    {
      DigitsStep(m, b[i..]);
      var low := DigitChar(m % 10);
      ghost var written := b[i..];
      i := i - 1;
      b[i] := low;
      assert b[i..] == [low] + written;
      m := m / 10;
    }
    r := b[i..];
  }
}
