/** Decimal digits and the numbers they stand for. */
module Decimals {
  import opened Bytes

  predicate AllDigits(text: seq<byte>) {
    forall k | 0 <= k < |text| :: IsDigit(text[k])
  }

  /** The number that digits stand for, read from left to right. */
  function Magnitude(digits: seq<byte>): nat
    requires AllDigits(digits)
  {
    if digits == [] then 0
    else
      var last := digits[|digits| - 1];
      assert IsDigit(last);
      Magnitude(digits[..|digits| - 1]) * 10 + (last - ZERO)
  }

  /** The digits of a number, without leading zeros; they read back as the number. */
  function Decimal(n: nat): (digits: seq<byte>)
    ensures digits != [] && AllDigits(digits)
    ensures digits[0] == ZERO ==> |digits| == 1
    ensures Magnitude(digits) == n
  {
    if n < 10 then
      var digits := [ZERO + n];
      assert digits[..0] == [];
      digits
    else
      var front := Decimal(n / 10);
      var digits := front + [ZERO + n % 10];
      assert digits[..|digits| - 1] == front;
      digits
  }

  // ---- place values ----

  function PowerOfTen(n: nat): nat {
    if n == 0 then 1 else 10 * PowerOfTen(n - 1)
  }

  /** The sum of all digits, each times the power of ten of its place. */
  function PlaceValue(digits: seq<byte>): nat
    requires AllDigits(digits)
  {
    if digits == [] then 0
    else
      assert IsDigit(digits[0]);
      (digits[0] - 48) * PowerOfTen(|digits| - 1) + PlaceValue(digits[1..])
  }

  lemma MagnitudeOne(digit: byte)
    requires IsDigit(digit)
    ensures Magnitude([digit]) == digit - 48
  {
    assert [digit][..0] == [];
  }

  lemma {:induction false} MagnitudeJoin(a: seq<byte>, b: seq<byte>)
    requires AllDigits(a) && AllDigits(b)
    ensures AllDigits(a + b)
    ensures Magnitude(a + b) == Magnitude(a) * PowerOfTen(|b|) + Magnitude(b)
  {
    if b == [] {
      assert a + b == a;
    } else {
      var n := |b| - 1;
      assert (a + b)[..|a + b| - 1] == a + b[..n] && (a + b)[|a + b| - 1] == b[n];
      MagnitudeJoin(a, b[..n]);
      TimesTen(Magnitude(a), PowerOfTen(n));
    }
  }

  lemma TimesTen(x: nat, y: nat)
    ensures x * y * 10 == x * (10 * y)
  {
  }

  /** Digits stand for the sum of their place values. */
  lemma {:induction false} MagnitudeIsPlaceValue(digits: seq<byte>)
    requires AllDigits(digits)
    ensures Magnitude(digits) == PlaceValue(digits)
  {
    hide Magnitude;
    if digits == [] {
      NoDigits();
    } else {
      assert digits == [digits[0]] + digits[1..];
      MagnitudeOne(digits[0]);
      MagnitudeJoin([digits[0]], digits[1..]);
      MagnitudeIsPlaceValue(digits[1..]);
    }
  }

  lemma NoDigits()
    ensures Magnitude([]) == 0
  {
  }
}
