/** Positional numerals in any base, least significant digit first unless said otherwise. */
module Numerals {
  import opened FloorArithmetic

  ghost predicate IsBelow(digits: seq<nat>, base: nat) {
    forall i | 0 <= i < |digits| :: digits[i] < base
  }

  /** Digits below the base and no superfluous zero at the most significant end. */
  ghost predicate Canonical(digits: seq<nat>, base: nat) {
    IsBelow(digits, base) && (digits == [] || digits[|digits| - 1] != 0)
  }

  function Value(digits: seq<nat>, base: nat): nat {
    if digits == [] then 0 else digits[0] + base * Value(digits[1..], base)
  }

  function Digits(n: nat, base: nat): seq<nat>
    requires 2 <= base
  {
    if n == 0 then [] else [n % base] + Digits(n / base, base)
  }

  /** Exactly `width` digits, the ones above them dropped. */
  function FixedDigits(n: nat, base: nat, width: nat): (digits: seq<nat>)
    requires 2 <= base
    ensures |digits| == width
    ensures forall i | 0 <= i < width :: digits[i] < base
  {
    if width == 0 then [] else [n % base] + FixedDigits(n / base, base, width - 1)
  }

  function Power(base: nat, exponent: nat): nat {
    if exponent == 0 then 1 else base * Power(base, exponent - 1)
  }

  function Reverse<T>(s: seq<T>): (r: seq<T>)
    ensures |r| == |s|
    ensures forall i | 0 <= i < |s| :: r[i] == s[|s| - 1 - i]
  {
    if s == [] then [] else Reverse(s[1..]) + [s[0]]
  }

  /** The value of a numeral written most significant digit first. */
  function BigEndian(digits: seq<nat>, base: nat): nat {
    if digits == [] then 0
    else BigEndian(digits[..|digits| - 1], base) * base + digits[|digits| - 1]
  }

  lemma ReverseTwice<T>(s: seq<T>)
    ensures Reverse(Reverse(s)) == s
  {
  }

  lemma {:induction false} BigEndianReverses(digits: seq<nat>, base: nat)
    ensures BigEndian(digits, base) == Value(Reverse(digits), base)
  {
    if digits != [] {
      var last := |digits| - 1;
      BigEndianReverses(digits[..last], base);
      assert Reverse(digits)[1..] == Reverse(digits[..last]);
    }
  }

  lemma ValueOfCons(digit: nat, rest: seq<nat>, base: nat)
    ensures Value([digit] + rest, base) == digit + base * Value(rest, base)
  {
    assert ([digit] + rest)[1..] == rest;
  }

  lemma QuotientShrinks(n: nat, base: nat)
    requires 2 <= base
    ensures 0 <= n / base && (0 < n ==> n / base < n)
  {
  }

  lemma DivMod(n: nat, base: nat) returns (low: nat, high: nat)
    requires 2 <= base
    ensures low == n % base < base && high == n / base
    ensures low + base * high == n
    ensures 0 < n ==> high < n
  {
    QuotientShrinks(n, base);
    low, high := n % base, n / base;
  }

  lemma {:induction false} ValueOfDigits(n: nat, base: nat)
    requires 2 <= base
    ensures Value(Digits(n, base), base) == n
  {
    if n != 0 {
      var low, high := DivMod(n, base);
      ValueOfDigits(high, base);
      ValueOfCons(low, Digits(high, base), base);
    }
  }

  lemma {:induction false} DigitsAreCanonical(n: nat, base: nat)
    requires 2 <= base
    ensures Canonical(Digits(n, base), base)
  {
    if n != 0 {
      DigitsAreCanonical(n / base, base);
    }
  }

  /** A value has one canonical numeral. */
  lemma {:induction false} CanonicalIsUnique(digits: seq<nat>, base: nat)
    requires 2 <= base && Canonical(digits, base)
    ensures Digits(Value(digits, base), base) == digits
  {
    if digits != [] {
      var rest := digits[1..];
      CanonicalIsUnique(rest, base);
      var n := Value(digits, base);
      QuotientRemainder(Value(rest, base), digits[0], base);
      assert rest != [] ==> Value(rest, base) != 0;
    }
  }

  lemma QuotientRemainder(q: nat, r: nat, base: nat)
    requires r < base
    ensures (r + base * q) / base == q && (r + base * q) % base == r
  {
    DivShift(r, q, base);
    DivBelow(r, base, 1);
    assert (r + base * q) % base == r + base * q - (r + base * q) / base * base;
  }

  /** Prefixing a digit to a value below p gives a value below base * p. */
  lemma DigitBelow(digit: nat, v: nat, p: nat, base: nat)
    requires digit < base && v < p
    ensures digit + base * v < base * p
  {
    MulMonotone(v + 1, p, base);
  }

  lemma {:induction false} ValueOfConcatenation(low: seq<nat>, high: seq<nat>, base: nat)
    ensures Value(low + high, base) == Value(low, base) + Power(base, |low|) * Value(high, base)
  {
    if low == [] {
      assert low + high == high;
    } else {
      var rest := low[1..];
      ValueOfConcatenation(rest, high, base);
      assert low + high == [low[0]] + (rest + high);
      ValueOfCons(low[0], rest + high, base);
      Distribute(base, Value(rest, base), Power(base, |rest|), Value(high, base));
    }
  }

  lemma Distribute(b: int, v: int, p: int, h: int)
    ensures b * (v + p * h) == b * v + b * p * h
  {
    assert b * (p * h) == b * p * h;
  }

  lemma {:induction false} ValueBelowPower(digits: seq<nat>, base: nat)
    requires IsBelow(digits, base)
    ensures Value(digits, base) < Power(base, |digits|)
  {
    if digits != [] {
      ValueBelowPower(digits[1..], base);
      DigitBelow(digits[0], Value(digits[1..], base), Power(base, |digits| - 1), base);
    }
  }

  lemma HighDigitsBelow(n: nat, base: nat, p: nat)
    requires 2 <= base && n < base * p
    ensures n / base < p
  {
    assert base * p == p * base;
    DivBelow(n, base, p);
  }

  lemma {:induction false} FixedDigitsValue(n: nat, base: nat, width: nat)
    requires 2 <= base && n < Power(base, width)
    ensures Value(FixedDigits(n, base, width), base) == n
  {
    if width != 0 {
      HighDigitsBelow(n, base, Power(base, width - 1));
      var low, high := DivMod(n, base);
      FixedDigitsValue(high, base, width - 1);
      ValueOfCons(low, FixedDigits(high, base, width - 1), base);
    }
  }

  lemma {:induction false} FixedDigitsOfValue(digits: seq<nat>, base: nat)
    requires 2 <= base && IsBelow(digits, base)
    ensures FixedDigits(Value(digits, base), base, |digits|) == digits
  {
    if digits != [] {
      FixedDigitsOfValue(digits[1..], base);
      QuotientRemainder(Value(digits[1..], base), digits[0], base);
    }
  }
}
