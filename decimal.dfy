/** Decimal integers as the Go standard library reads and writes them:
    strconv.Atoi (an optional sign, at least one digit, a value that fits a
    64-bit int) and fmt's `%d` verb. */
module Decimal {
  import opened Wrappers
  import opened Bytes

  const MinInt64: int := -0x8000_0000_0000_0000
  const MaxInt64: int := 0x7fff_ffff_ffff_ffff

  predicate IsDigit(b: byte) {
    ZERO <= b <= NINE
  }

  predicate AllDigits(s: Bytes) {
    forall i :: 0 <= i < |s| ==> IsDigit(s[i])
  }

  /** The value of a run of decimal digits, most significant first. */
  function DigitsValue(s: Bytes): nat
    requires AllDigits(s)
  {
    if s == [] then 0 else DigitsValue(s[..|s| - 1]) * 10 + (s[|s| - 1] - ZERO) as int
  }

  /** The shortest decimal spelling of `n` ("0" for zero). */
  function NatDigits(n: nat): (r: Bytes)
    ensures r != [] && AllDigits(r)
  {
    if n < 10 then [ZERO + n as byte] else NatDigits(n / 10) + [ZERO + (n % 10) as byte]
  }

  /** fmt.Sprintf("%d", n). */
  function FormatInt(n: int): Bytes {
    if n < 0 then [DASH] + NatDigits(-n) else NatDigits(n)
  }

  /** strconv.Atoi: None for a syntax or range error. */
  function Atoi(s: Bytes): (r: Option<int>)
    ensures r.Some? ==> MinInt64 <= r.value <= MaxInt64
    ensures s == [] ==> r == None
  {
    if s == [] then None
    else
      var digits := if s[0] == DASH || s[0] == PLUS then s[1..] else s;
      if digits == [] || !AllDigits(digits) then None
      else
        var v: int := if s[0] == DASH then -(DigitsValue(digits) as int) else DigitsValue(digits);
        if MinInt64 <= v <= MaxInt64 then Some(v) else None
  }

  /** Reading back the digits that NatDigits writes gives the number. */
  lemma {:induction false} NatDigitsValue(n: nat)
    ensures DigitsValue(NatDigits(n)) == n
  {
    var r := NatDigits(n);
    if n >= 10 {
      NatDigitsValue(n / 10);
      assert r[..|r| - 1] == NatDigits(n / 10);
    }
  }

  /** Atoi reads back every 64-bit integer that `%d` writes. */
  lemma AtoiFormatInt(n: int)
    requires MinInt64 <= n <= MaxInt64
    ensures Atoi(FormatInt(n)) == Some(n)
  {
    var s := FormatInt(n);
    if n < 0 {
      NatDigitsValue(-n);
      assert s[1..] == NatDigits(-n);
    } else {
      NatDigitsValue(n);
      assert IsDigit(s[0]);
    }
  }
}
