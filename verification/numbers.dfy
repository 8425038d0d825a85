/**
 * Kotlin's fixed-width integers where the services convert between them:
 * `Long.toInt()` on repository counts and `Long.toString()` on due dates.
 */
module Numbers {

  const TWO_POW_31: int := 0x8000_0000
  const TWO_POW_63: int := 0x8000_0000_0000_0000

  /** Kotlin `Int`. */
  type Int32 = x: int | -TWO_POW_31 <= x < TWO_POW_31

  /** Kotlin `Long`. */
  type Int64 = x: int | -TWO_POW_63 <= x < TWO_POW_63

  /** `Long.toInt()`: keeps the low 32 bits, read as a signed value. */
  function ToInt32(n: int): (r: Int32)
    ensures (r - n) % (2 * TWO_POW_31) == 0
    ensures -TWO_POW_31 <= n < TWO_POW_31 ==> r == n
  {
    (n + TWO_POW_31) % (2 * TWO_POW_31) - TWO_POW_31
  }

  predicate IsDigit(c: char) {
    '0' <= c <= '9'
  }

  function DigitChar(d: nat): (c: char)
    requires d < 10
    ensures IsDigit(c)
  {
    ['0', '1', '2', '3', '4', '5', '6', '7', '8', '9'][d]
  }

  function DigitValue(c: char): (d: nat)
    requires IsDigit(c)
    ensures d < 10 && DigitChar(d) == c
  {
    (c as int - '0' as int) as nat
  }

  /** Decimal digits of `n`, most significant first, without leading zeros. */
  function ShowNat(n: nat): (s: string)
    ensures |s| >= 1
    ensures forall i :: 0 <= i < |s| ==> IsDigit(s[i])
  {
    if n < 10 then [DigitChar(n)] else ShowNat(n / 10) + [DigitChar(n % 10)]
  }

  /** An optional minus sign followed by one or more decimal digits. */
  predicate IsDecimal(s: string) {
    && |s| >= 1
    && (s[0] == '-' ==> |s| >= 2)
    && forall i :: (if s[0] == '-' then 1 else 0) <= i < |s| ==> IsDigit(s[i])
  }

  /** `Long.toString()`: a minus sign for negative values, then the decimal digits. */
  function Show(n: Int64): (s: string)
    ensures IsDecimal(s)
    ensures n < 0 <==> s[0] == '-'
  {
    if n < 0 then "-" + ShowNat(-(n as int)) else ShowNat(n)
  }

  /** The value of a non-empty string of decimal digits. */
  function ParseNat(s: string): (n: nat)
    requires |s| >= 1
    requires forall i :: 0 <= i < |s| ==> IsDigit(s[i])
  {
    if |s| == 1 then DigitValue(s[0])
    else 10 * ParseNat(s[..|s| - 1]) + DigitValue(s[|s| - 1])
  }

  /** Reads back what `Show` wrote. */
  function Parse(s: string): (n: int)
    requires IsDecimal(s)
  {
    if s[0] == '-' then -(ParseNat(s[1..]) as int) else ParseNat(s)
  }

  lemma DigitRoundTrip(d: nat)
    requires d < 10
    ensures DigitValue(DigitChar(d)) == d
  {
  }

  lemma {:induction false} ParseShowNat(n: nat)
    ensures ParseNat(ShowNat(n)) == n
  {
    if n < 10 {
      DigitRoundTrip(n);
    } else {
      var s := ShowNat(n);
      assert s[..|s| - 1] == ShowNat(n / 10);
      ParseShowNat(n / 10);
      DigitRoundTrip(n % 10);
    }
  }

  /** `Show` loses nothing: the rendered due date determines the number. */
  lemma ParseShow(n: Int64)
    ensures Parse(Show(n)) == n
  {
    if n < 0 {
      var m: nat := -(n as int);
      var s := Show(n);
      assert s == "-" + ShowNat(m);
      assert s[1..] == ShowNat(m);
      ParseShowNat(m);
      assert Parse(s) == -(ParseNat(s[1..]) as int);
    } else {
      ParseShowNat(n);
    }
  }

  lemma ShowInjective(m: Int64, n: Int64)
    ensures Show(m) == Show(n) ==> m == n
  {
    ParseShow(m);
    ParseShow(n);
  }
}
