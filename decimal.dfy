/**
 * Decimal rendering of a project ID, as Go's `strconv.Itoa` writes it, and
 * the inverse reading `strconv.Atoi` (without its 64-bit range check).
 */
module Decimal {
  import opened Wrappers
  import opened ByteStrings

  const Zero: Byte := 48
  const Minus: Byte := 45
  const Plus: Byte := 43

  predicate IsDigit(c: Byte) {
    48 <= c <= 57
  }

  /** The decimal digits of `n`, most significant first. */
  function Digits(n: nat): (r: Bytes)
    ensures |r| >= 1
    ensures forall i :: 0 <= i < |r| ==> IsDigit(r[i])
    ensures r[0] == Zero ==> n == 0
  {
    if n < 10 then [Zero + n] else Digits(n / 10) + [Zero + n % 10]
  }

  /** `strconv.Itoa`: a minus sign for negative numbers, then the digits. */
  function Itoa(n: int): (r: Bytes)
    ensures r != [] && (r[0] == Minus <==> n < 0)
    ensures forall i :: (if n < 0 then 1 else 0) <= i < |r| ==> IsDigit(r[i])
    ensures |r| >= 2 && r[0] == Minus ==> r[1] != Zero
    ensures |r| >= 2 && r[0] != Minus ==> r[0] != Zero
  {
    if n < 0 then [Minus] + Digits(-n) else Digits(n)
  }

  /** The number that a run of decimal digits denotes. */
  function DigitsValue(s: Bytes): nat
    requires forall i :: 0 <= i < |s| ==> IsDigit(s[i])
  {
    if s == [] then 0
    else
      var last := s[|s| - 1];
      assert IsDigit(last);
      DigitsValue(s[..|s| - 1]) * 10 + (last - Zero)
  }

  /** `strconv.Atoi`: an optional sign and at least one digit, nothing else. */
  function Atoi(s: Bytes): Option<int>
  {
    var negative := s != [] && s[0] == Minus;
    var body := if s != [] && (s[0] == Minus || s[0] == Plus) then s[1..] else s;
    if body == [] || exists i :: 0 <= i < |body| && !IsDigit(body[i]) then None
    else
      var v: int := DigitsValue(body);
      Some(if negative then -v else v)
  }

  lemma {:induction false} DigitsValueOfDigits(n: nat)
    ensures DigitsValue(Digits(n)) == n
  {
    if n >= 10 {
      DigitsValueOfDigits(n / 10);
      var d := Digits(n);
      assert d[..|d| - 1] == Digits(n / 10);
    }
  }

  /** Reading the rendering of any integer gives that integer back. */
  lemma AtoiItoa(n: int)
    ensures Atoi(Itoa(n)) == Some(n)
  {
    var r := Itoa(n);
    if n < 0 {
      assert r[1..] == Digits(-n);
      DigitsValueOfDigits(-n);
    } else {
      DigitsValueOfDigits(n);
    }
  }
}
