/**
 * Decimal integers on the wire: `strconv.Itoa` for the non-negative lengths
 * the encoder writes, and `strconv.ParseInt(line, 10, 64)` as `readInteger`
 * (resp.go:81-91) uses it.
 */
module Numbers {
  import opened Wrappers
  import opened Values

  const MinInt64: int := -0x8000_0000_0000_0000
  const MaxInt64: int := 0x7fff_ffff_ffff_ffff

  const Plus: byte := 43   // '+'
  const Minus: byte := 45  // '-'
  const Zero: byte := 48   // '0'

  predicate IsDigit(b: byte)
  {
    Zero <= b <= Zero + 9
  }

  predicate AllDigits(ds: Bytes)
  {
    forall i :: 0 <= i < |ds| ==> IsDigit(ds[i])
  }

  /** The base-10 value of a digit string, most significant digit first. */
  function DigitsValue(ds: Bytes): nat
    requires AllDigits(ds)
  {
    if ds == [] then 0 else DigitsValue(ds[..|ds| - 1]) * 10 + (ds[|ds| - 1] - Zero) as int
  }

  /** A non-empty string of digits after an optional sign: the syntax ParseInt accepts in base 10. */
  predicate IsSignedDecimal(line: Bytes)
  {
    && |line| > 0
    && (IsDigit(line[0]) || ((line[0] == Plus || line[0] == Minus) && |line| > 1))
    && AllDigits(line[1..])
  }

  /** `strconv.Itoa(n)` for n >= 0. */
  function Decimal(n: nat): (ds: Bytes)
    ensures 1 <= |ds| && AllDigits(ds)
    ensures ds[0] == Zero ==> n == 0
  {
    if n < 10 then [Zero + n as byte] else Decimal(n / 10) + [Zero + (n % 10) as byte]
  }

  /**
   * `strconv.ParseInt(string(line), 10, 64)`: an optional '+' or '-', then
   * one or more decimal digits, and the value must fit in 64 signed bits;
   * anything else is an error (None).
   */
  function ParseInt64(line: Bytes): (r: Option<int>)
    ensures r.Some? ==> IsSignedDecimal(line)
    ensures r.Some? ==> MinInt64 <= r.value <= MaxInt64
    ensures r.Some? && line[0] == Minus ==> r.value <= 0
    ensures r.Some? && line[0] != Minus ==> r.value >= 0
  {
    var signed := |line| > 0 && (line[0] == Plus || line[0] == Minus);
    var digits := if signed then line[1..] else line;
    if digits == [] || !AllDigits(digits) then None
    else
      var magnitude: int := DigitsValue(digits);
      var x: int := if signed && line[0] == Minus then -magnitude else magnitude;
      if MinInt64 <= x <= MaxInt64 then Some(x) else None
  }

  /** The value a signed decimal denotes. */
  function SignedValue(line: Bytes): int
    requires IsSignedDecimal(line)
  {
    if line[0] == Minus then -(DigitsValue(line[1..]) as int)
    else if line[0] == Plus then DigitsValue(line[1..])
    else DigitsValue(line)
  }

  /** ParseInt succeeds exactly on the signed decimals whose value fits in 64 bits, and returns that value. */
  lemma ParseInt64Exact(line: Bytes)
    ensures ParseInt64(line).Some? <==>
      IsSignedDecimal(line) && MinInt64 <= SignedValue(line) <= MaxInt64
    ensures ParseInt64(line).Some? ==> ParseInt64(line).value == SignedValue(line)
  {
    if |line| > 0 && IsDigit(line[0]) && AllDigits(line[1..]) {
      assert AllDigits(line);
    }
    if |line| > 0 && !IsDigit(line[0]) && line[0] != Plus && line[0] != Minus {
      assert !AllDigits(line);
    }
  }

  /** Reading back what Itoa wrote gives the number back. */
  lemma {:induction false} DecimalValue(n: nat)
    ensures DigitsValue(Decimal(n)) == n
  {
    if n >= 10 {
      var ds := Decimal(n);
      assert ds[..|ds| - 1] == Decimal(n / 10);
      DecimalValue(n / 10);
    }
  }

  /** ParseInt accepts every non-negative 64-bit decimal and returns its value. */
  lemma ParseDecimal(n: nat)
    requires n <= MaxInt64
    ensures ParseInt64(Decimal(n)) == Some(n)
  {
    DecimalValue(n);
    assert Decimal(n)[0] != Plus && Decimal(n)[0] != Minus;
  }

  /** ParseInt accepts '-' followed by the decimal of any magnitude up to 2^63. */
  lemma ParseNegativeDecimal(n: nat)
    requires n <= -MinInt64
    ensures ParseInt64([Minus] + Decimal(n)) == Some(-(n as int))
  {
    DecimalValue(n);
    assert ([Minus] + Decimal(n))[1..] == Decimal(n);
  }
}
