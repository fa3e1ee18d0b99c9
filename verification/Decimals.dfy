/** Printing and parsing LGUSD amounts: a whole number of millionths as decimal text. */
module Decimals {
  import opened Prelude
  import opened Numerals

  const SCALE := 1_000_000

  datatype Parsed = Amount(amount: int) | SyntaxError

  // ---- the JavaScript primitives the two functions are made of ----

  predicate IsDigit(c: char) {
    '0' <= c <= '9'
  }

  ghost predicate AllDigits(s: string) {
    forall i | 0 <= i < |s| :: IsDigit(s[i])
  }

  /** White space and line terminators, as `trim` and `BigInt` strip them. */
  predicate IsSpace(c: char) {
    '\t' <= c <= '\r' || c == ' ' || c == '\U{A0}' || c == '\U{FEFF}' || c == '\U{1680}'
    || '\U{2000}' <= c <= '\U{200A}' || c == '\U{2028}' || c == '\U{2029}' || c == '\U{202F}'
    || c == '\U{205F}' || c == '\U{3000}'
  }

  function TrimStart(s: string): string {
    if s != [] && IsSpace(s[0]) then TrimStart(s[1..]) else s
  }

  function TrimEnd(s: string): string {
    if s != [] && IsSpace(s[|s| - 1]) then TrimEnd(s[..|s| - 1]) else s
  }

  function Trim(s: string): string {
    TrimEnd(TrimStart(s))
  }

  /** The piece of `s` before the first dot. */
  function BeforeDot(s: string): (piece: string)
    ensures piece <= s
  {
    if s == [] || s[0] == '.' then [] else [s[0]] + BeforeDot(s[1..])
  }

  /** The first two pieces of `s.split(".")`, the second one empty if there is no dot. */
  function Split(s: string): (string, string) {
    var first := BeforeDot(s);
    (first, if |first| < |s| then BeforeDot(s[|first| + 1..]) else [])
  }

  /** The value of a digit or letter in bases up to 16, or 16. */
  function DigitValue(c: char): (v: nat)
    ensures v <= 16
  {
    if '0' <= c <= '9' then c as int - '0' as int
    else if 'a' <= c <= 'f' then c as int - 'a' as int + 10
    else if 'A' <= c <= 'F' then c as int - 'A' as int + 10
    else 16
  }

  function DigitValues(s: string): (vs: seq<nat>)
    ensures |vs| == |s| && forall i | 0 <= i < |s| :: vs[i] == DigitValue(s[i])
  {
    seq(|s|, i requires 0 <= i < |s| => DigitValue(s[i]))
  }

  /** A nonempty unsigned numeral in the given base. */
  function ParseNumeral(s: string, base: nat): Parsed {
    if s != [] && forall i | 0 <= i < |s| :: DigitValue(s[i]) < base
    then Amount(BigEndian(DigitValues(s), base))
    else SyntaxError
  }

  function Negate(p: Parsed): Parsed {
    match p
    case Amount(n) => Amount(-n)
    case SyntaxError => SyntaxError
  }

  /** `BigInt` of a string: empty, prefixed, or decimal with an optional sign. */
  function ParseBigInt(text: string): Parsed {
    var s := Trim(text);
    if s == [] then Amount(0)
    else if |s| >= 2 && s[0] == '0' && s[1] in "xX" then ParseNumeral(s[2..], 16)
    else if |s| >= 2 && s[0] == '0' && s[1] in "oO" then ParseNumeral(s[2..], 8)
    else if |s| >= 2 && s[0] == '0' && s[1] in "bB" then ParseNumeral(s[2..], 2)
    else if s[0] == '+' then ParseNumeral(s[1..], 10)
    else if s[0] == '-' then Negate(ParseNumeral(s[1..], 10))
    else ParseNumeral(s, 10)
  }

  function DigitChars(digits: seq<nat>): (s: string)
    requires forall i | 0 <= i < |digits| :: digits[i] < 10
    ensures AllDigits(s)
    ensures |s| == |digits| && forall i | 0 <= i < |s| :: DigitValue(s[i]) == digits[i]
  {
    seq(|digits|, i requires 0 <= i < |digits| => '0' + digits[i] as char)
  }

  /** `toString` of a non-negative integer. */
  function NatText(n: nat): (s: string)
    ensures AllDigits(s)
  {
    DigitsAreCanonical(n, 10);
    if n == 0 then "0" else DigitChars(Reverse(Digits(n, 10)))
  }

  /** `toString` of an integer. */
  function IntText(n: int): string {
    if n < 0 then "-" + NatText(-n) else NatText(n)
  }

  function PadStart(s: string, width: nat): (padded: string)
    decreases width - |s|
  {
    if |s| < width then PadStart("0" + s, width) else s
  }

  /** `replace(/0+$/, "")`. */
  function StripZeros(s: string): (stripped: string)
    ensures stripped <= s
    ensures stripped == [] || stripped[|stripped| - 1] != '0'
    ensures forall i | |stripped| <= i < |s| :: s[i] == '0'
  {
    if s != [] && s[|s| - 1] == '0' then StripZeros(s[..|s| - 1]) else s
  }

  /** Division and remainder truncated toward zero, as on `bigint`. */
  function Quotient(n: int): int {
    if n < 0 then -(-n / SCALE) else n / SCALE
  }

  function Remainder(n: int): int {
    n - Quotient(n) * SCALE
  }

  // ---- the two functions ----

  function FormatLgUsd(amount: int): string {
    AmountText(Quotient(amount), Remainder(amount))
  }

  function AmountText(whole: int, frac: int): string {
    var fracText := StripZeros(PadStart(IntText(frac), 6));
    if fracText != [] then IntText(whole) + "." + fracText else IntText(whole)
  }

  function ParseLgUsd(amount: string): Parsed {
    var (wholeRaw, fracRaw) := Split(Trim(amount));
    match ParseBigInt(if wholeRaw == [] then "0" else wholeRaw)
    case SyntaxError => SyntaxError
    case Amount(whole) =>
      match ParseBigInt((fracRaw + "000000")[..6])
      case SyntaxError => SyntaxError
      case Amount(frac) => Amount(whole * SCALE + frac)
  }

  // ---- decimal numerals ----

  /** The number a string of digits denotes. */
  function Number(s: string): nat {
    BigEndian(DigitValues(s), 10)
  }

  /** The number of zeros `s` starts with. */
  function ZeroPrefix(s: string): (z: nat)
    ensures z <= |s|
    ensures forall i | 0 <= i < z :: s[i] == '0'
    ensures z < |s| ==> s[z] != '0'
  {
    if s != [] && s[0] == '0' then 1 + ZeroPrefix(s[1..]) else 0
  }

  /** `s` without leading zeros, but for one if nothing else is left. */
  function WithoutLeadingZeros(s: string): string {
    if ZeroPrefix(s) == |s| then "0" else s[ZeroPrefix(s)..]
  }

  lemma {:induction false} LeadingZerosDoNotCount(s: string, z: nat)
    requires z <= |s| && forall i | 0 <= i < z :: s[i] == '0'
    ensures Number(s[z..]) == Number(s)
    decreases |s|
  {
    if z < |s| {
      var last := |s| - 1;
      LeadingZerosDoNotCount(s[..last], z);
      assert s[..last][z..] == s[z..][..last - z];
      assert DigitValues(s[z..])[..last - z] == DigitValues(s[z..][..last - z]);
      assert DigitValues(s)[..last] == DigitValues(s[..last]);
    } else {
      AllZeros(s);
    }
  }

  lemma {:induction false} AllZeros(s: string)
    requires forall i | 0 <= i < |s| :: s[i] == '0'
    ensures Number(s) == 0
  {
    if s != [] {
      AllZeros(s[..|s| - 1]);
      assert DigitValues(s)[..|s| - 1] == DigitValues(s[..|s| - 1]);
    }
  }

  lemma CanonicalPrinted(s: string)
    requires AllDigits(s) && s != [] && s[0] != '0'
    ensures NatText(Number(s)) == s
  {
    var digits := DigitValues(s);
    BigEndianReverses(digits, 10);
    CanonicalIsUnique(Reverse(digits), 10);
    ReverseTwice(digits);
    assert Digits(0, 10) == [] != Reverse(digits);
    CharsOfValues(s);
  }

  /** Printing a number drops the leading zeros of any numeral of it. */
  lemma PrintedNumber(s: string)
    requires AllDigits(s)
    ensures NatText(Number(s)) == WithoutLeadingZeros(s)
  {
    var z := ZeroPrefix(s);
    if z < |s| {
      LeadingZerosDoNotCount(s, z);
      CanonicalPrinted(s[z..]);
    } else {
      AllZeros(s);
    }
  }

  lemma CharsOfValues(s: string)
    requires AllDigits(s)
    ensures forall i | 0 <= i < |s| :: DigitValues(s)[i] < 10
    ensures DigitChars(DigitValues(s)) == s
  {
    forall i | 0 <= i < |s|
      ensures DigitChars(DigitValues(s))[i] == s[i]
    {
      var v := DigitValue(s[i]);
      assert ('0' + v as char) as int == '0' as int + v;
    }
  }

  lemma NumberOfPrinted(n: nat)
    ensures Number(NatText(n)) == n && NatText(n) != []
  {
    if n != 0 {
      var digits := Reverse(Digits(n, 10));
      DigitsAreCanonical(n, 10);
      ValueOfDigits(n, 10);
      BigEndianReverses(digits, 10);
      ReverseTwice(Digits(n, 10));
      assert DigitValues(NatText(n)) == digits;
    } else {
      AllZeros("0");
    }
  }

  /** Padding the printed number of a numeral back to its width restores it. */
  lemma PaddedNumber(s: string)
    requires AllDigits(s) && s != []
    ensures PadStart(NatText(Number(s)), |s|) == s
  {
    PrintedNumber(s);
    var z := ZeroPrefix(s);
    PaddingRestores(s, if z == |s| then 1 else |s| - z);
    assert z == |s| ==> s[|s| - 1..] == "0";
  }

  lemma {:induction false} PaddingRestores(s: string, kept: nat)
    requires kept <= |s|
    requires forall i | 0 <= i < |s| - kept :: s[i] == '0'
    ensures PadStart(s[|s| - kept..], |s|) == s
    decreases |s| - kept
  {
    if kept < |s| {
      PaddingRestores(s, kept + 1);
      assert "0" + s[|s| - kept..] == s[|s| - kept - 1..];
    }
  }

  lemma {:induction false} NumberBelow(s: string)
    requires AllDigits(s)
    ensures Number(s) < Power(10, |s|)
  {
    var digits := DigitValues(s);
    BigEndianReverses(digits, 10);
    ValueBelowPower(Reverse(digits), 10);
  }

  lemma SixDigits()
    ensures Power(10, 6) == SCALE
  {
    assert Power(10, 2) == 100;
    assert Power(10, 4) == 100 * Power(10, 2);
  }

  // ---- trimming and splitting digit strings ----

  lemma DigitsAreNotSpaces(s: string)
    requires AllDigits(s)
    ensures Trim(s) == s
  {
  }

  lemma BigIntOfDigits(s: string)
    requires AllDigits(s)
    ensures ParseBigInt(s) == Amount(Number(s))
  {
    DigitsAreNotSpaces(s);
    assert DigitValues([]) == [];
  }

  lemma {:induction false} BeforeDotIs(digits: string, rest: string)
    requires AllDigits(digits) && (rest == [] || rest[0] == '.')
    ensures BeforeDot(digits + rest) == digits
  {
    if digits == [] {
      assert digits + rest == rest;
    } else {
      BeforeDotIs(digits[1..], rest);
      assert (digits + rest)[1..] == digits[1..] + rest;
    }
  }

  lemma {:induction false} TrimPadding(before: string, core: string, after: string)
    requires forall i | 0 <= i < |before| :: IsSpace(before[i])
    requires forall i | 0 <= i < |after| :: IsSpace(after[i])
    requires core == [] || (!IsSpace(core[0]) && !IsSpace(core[|core| - 1]))
    ensures Trim(before + core + after) == core
    decreases |before| + |after|
  {
    if before != [] {
      TrimPadding(before[1..], core, after);
      assert (before + core + after)[1..] == before[1..] + core + after;
    } else if core == [] && after != [] {
      assert before + core + after == after + core + [];
      TrimPadding(after[1..], core, []);
      assert (before + core + after)[1..] == after[1..] + core + [];
    } else if after != [] {
      var all := before + core + after;
      var last := |all| - 1;
      TrimPadding(before, core, after[..|after| - 1]);
      assert all[..last] == before + core + after[..|after| - 1];
      assert TrimStart(all) == all && TrimStart(all[..last]) == all[..last];
    } else {
      assert before + core + after == core;
    }
  }

  // ---- the two laws ----

  /** The decimal text `whole[.frac]`. */
  function DecimalText(whole: string, dot: bool, frac: string): string {
    if dot then whole + "." + frac else whole
  }

  /** The first six digits of a fraction, filled up with zeros. */
  function SixPlaces(frac: string): (six: string)
    ensures |six| == 6
    ensures AllDigits(frac) ==> AllDigits(six)
  {
    (frac + "000000")[..6]
  }

  lemma SplitDecimal(whole: string, dot: bool, frac: string)
    requires AllDigits(whole) && AllDigits(frac) && (!dot ==> frac == [])
    ensures Split(DecimalText(whole, dot, frac)) == (whole, frac)
  {
    var core := DecimalText(whole, dot, frac);
    BeforeDotIs(whole, core[|whole|..]);
    assert core == whole + core[|whole|..];
    if dot {
      BeforeDotIs(frac, []);
      assert core[|whole| + 1..] == frac + [] == frac;
    }
  }

  lemma WholePart(whole: string)
    requires AllDigits(whole)
    ensures ParseBigInt(if whole == [] then "0" else whole) == Amount(Number(whole))
  {
    BigIntOfDigits(if whole == [] then "0" else whole);
    AllZeros("0");
    AllZeros("");
  }

  /** Any decimal text, in any white space, parses to its value truncated to six places. */
  lemma ParseDecimalText(before: string, whole: string, dot: bool, frac: string, after: string)
    requires AllDigits(whole) && AllDigits(frac) && (!dot ==> frac == [])
    requires forall i | 0 <= i < |before| :: IsSpace(before[i])
    requires forall i | 0 <= i < |after| :: IsSpace(after[i])
    ensures ParseLgUsd(before + DecimalText(whole, dot, frac) + after)
         == Amount(Number(whole) * 1_000_000 + Number(SixPlaces(frac)))
  {
    TrimPadding(before, DecimalText(whole, dot, frac), after);
    SplitDecimal(whole, dot, frac);
    WholePart(whole);
    BigIntOfDigits(SixPlaces(frac));
  }

  lemma QuotientOfSum(whole: nat, frac: nat)
    requires frac < SCALE
    ensures Quotient(whole * SCALE + frac) == whole
  {
  }

  lemma FormatOfSum(n: nat, whole: nat, frac: nat)
    requires frac < SCALE && n == whole * SCALE + frac
    ensures FormatLgUsd(n) == AmountText(whole, frac)
  {
    QuotientOfSum(whole, frac);
    assert Remainder(n) == frac;
  }

  /** Printing puts the whole part, then the six places without their trailing zeros. */
  lemma FormatParts(whole: nat, six: string)
    requires AllDigits(six) && |six| == 6
    ensures Number(six) < SCALE
    ensures AmountText(whole, Number(six))
         == DecimalText(NatText(whole), StripZeros(six) != [], StripZeros(six))
  {
    NumberBelow(six);
    SixDigits();
    PaddedNumber(six);
  }

  /** Zeros filled in at the end are stripped again. */
  lemma {:induction false} StripPadding(s: string, padded: string)
    requires s <= padded && forall i | |s| <= i < |padded| :: padded[i] == '0'
    ensures StripZeros(padded) == StripZeros(s)
  {
    if |s| < |padded| {
      StripPadding(s, padded[..|padded| - 1]);
    } else {
      assert s == padded;
    }
  }

  lemma StripPlaces(frac: string)
    ensures StripZeros(SixPlaces(frac)) == StripZeros(frac[..Min(6, |frac|)])
  {
    StripPadding(frac[..Min(6, |frac|)], SixPlaces(frac));
  }

  /** The canonical form of decimal text, truncated to six places. */
  function CanonicalText(whole: string, frac: string): string
  {
    var canonicalFrac := StripZeros(frac[..Min(6, |frac|)]);
    DecimalText(WithoutLeadingZeros(whole), canonicalFrac != [], canonicalFrac)
  }

  lemma FormatOfDecimal(n: nat, whole: string, frac: string)
    requires AllDigits(whole) && AllDigits(frac)
    requires n == Number(whole) * SCALE + Number(SixPlaces(frac))
    ensures FormatLgUsd(n) == CanonicalText(whole, frac)
  {
    FormatParts(Number(whole), SixPlaces(frac));
    FormatOfSum(n, Number(whole), Number(SixPlaces(frac)));
    PrintedNumber(whole);
    StripPlaces(frac);
  }

  lemma ParseBareDecimalText(text: string, whole: string, dot: bool, frac: string)
    requires AllDigits(whole) && AllDigits(frac) && (!dot ==> frac == [])
    requires text == DecimalText(whole, dot, frac)
    ensures ParseLgUsd(text) == Amount(Number(whole) * SCALE + Number(SixPlaces(frac)))
  {
    assert [] + text + [] == text;
    ParseDecimalText([], whole, dot, frac, []);
  }

  /** Parsing then printing gives the canonical numeral of the text truncated to six places. */
  lemma FormatOfParsed(text: string, whole: string, dot: bool, frac: string) returns (n: nat)
    requires AllDigits(whole) && AllDigits(frac) && (!dot ==> frac == [])
    requires text == DecimalText(whole, dot, frac)
    ensures ParseLgUsd(text) == Amount(n)
    ensures FormatLgUsd(n) == CanonicalText(whole, frac)
  {
    n := Number(whole) * SCALE + Number(SixPlaces(frac));
    ParseBareDecimalText(text, whole, dot, frac);
    FormatOfDecimal(n, whole, frac);
  }

  /** The six decimal places of a fraction. */
  function Places(frac: nat): (six: string)
    ensures AllDigits(six) && |six| == 6
  {
    DigitChars(Reverse(FixedDigits(frac, 10, 6)))
  }

  lemma NumberOfPlaces(frac: nat)
    requires frac < SCALE
    ensures Number(Places(frac)) == frac
  {
    var digits := FixedDigits(frac, 10, 6);
    assert DigitValues(Places(frac)) == Reverse(digits);
    SixDigits();
    FixedDigitsValue(frac, 10, 6);
    BigEndianReverses(Reverse(digits), 10);
    ReverseTwice(digits);
  }

  /** A whole number without superfluous zeros, a fraction of up to six digits without trailing zeros. */
  ghost predicate CanonicalParts(whole: string, frac: string) {
    AllDigits(whole) && whole != [] && (whole[0] == '0' ==> whole == "0")
    && AllDigits(frac) && |frac| <= 6 && (frac != [] ==> frac[|frac| - 1] != '0')
  }

  lemma RefilledPlaces(six: string)
    requires AllDigits(six) && |six| == 6
    ensures SixPlaces(StripZeros(six)) == six
  {
  }

  lemma PrintedParts(high: nat, low: nat)
    requires low < SCALE
    ensures CanonicalParts(NatText(high), StripZeros(Places(low)))
    ensures Number(NatText(high)) == high && Number(SixPlaces(StripZeros(Places(low)))) == low
  {
    NumberOfPlaces(low);
    NumberOfPrinted(high);
    PrintedNumber(NatText(high));
    RefilledPlaces(Places(low));
  }

  lemma FormattedParts(n: nat, high: nat, low: nat)
    requires low < SCALE && n == high * SCALE + low
    ensures var frac := StripZeros(Places(low));
            FormatLgUsd(n) == DecimalText(NatText(high), frac != [], frac)
  {
    NumberOfPlaces(low);
    FormatParts(high, Places(low));
    FormatOfSum(n, high, low);
  }

  /** A printed amount is a canonical numeral of it. */
  lemma FormattedIsCanonical(n: nat) returns (whole: string, frac: string)
    ensures CanonicalParts(whole, frac)
    ensures FormatLgUsd(n) == DecimalText(whole, frac != [], frac)
    ensures Number(whole) * 1_000_000 + Number(SixPlaces(frac)) == n
  {
    var high, low := n / SCALE, n % SCALE;
    whole, frac := NatText(high), StripZeros(Places(low));
    PrintedParts(high, low);
    FormattedParts(n, high, low);
  }

  /** Parsing a printed amount gives the amount back. */
  lemma ParseOfFormatted(n: nat)
    ensures ParseLgUsd(FormatLgUsd(n)) == Amount(n)
  {
    var whole, frac := FormattedIsCanonical(n);
    ParseBareDecimalText(FormatLgUsd(n), whole, frac != [], frac);
  }

  /** What digits denote, digit by digit. */
  lemma NumberIsDecimal(s: string, c: char)
    requires IsDigit(c)
    ensures Number("") == 0 && Number(s + [c]) == 10 * Number(s) + (c as int - 48)
  {
    assert DigitValues(s + [c]) == DigitValues(s) + [c as int - 48];
    assert (DigitValues(s) + [c as int - 48])[..|s|] == DigitValues(s);
    assert DigitValues("") == [];
  }

  // ---- other text ----

  /** Neither white space nor a dot. */
  ghost predicate Solid(s: string) {
    forall i | 0 <= i < |s| :: !IsSpace(s[i]) && s[i] != '.'
  }

  lemma SolidStays(s: string)
    requires Solid(s)
    ensures Trim(s) == s && Split(s) == (s, [])
  {
    SolidBeforeDot(s, []);
    assert s + [] == s;
  }

  lemma {:induction false} SolidBeforeDot(s: string, rest: string)
    requires Solid(s) && (rest == [] || rest[0] == '.')
    ensures BeforeDot(s + rest) == s
  {
    if s == [] {
      assert s + rest == rest;
    } else {
      SolidBeforeDot(s[1..], rest);
      assert (s + rest)[1..] == s[1..] + rest;
    }
  }

  lemma NoFraction()
    ensures ParseBigInt(([] + "000000")[..6]) == Amount(0)
  {
    assert ([] + "000000")[..6] == "000000";
    BigIntOfDigits("000000");
    AllZeros("000000");
  }

  /** Text without a dot is a whole number of units, as `BigInt` reads it. */
  lemma WholeText(s: string)
    requires Solid(s) && s != []
    ensures ParseLgUsd(s) == match ParseBigInt(s)
                             case Amount(n) => Amount(n * 1_000_000)
                             case SyntaxError => SyntaxError
  {
    hide Trim, Split, ParseBigInt, Solid;
    SolidStays(s);
    NoFraction();
  }

  lemma UnpaddedEnds(s: string)
    requires s != [] && !IsSpace(s[0]) && !IsSpace(s[|s| - 1])
    ensures Trim(s) == s
  {
  }

  /** `BigInt` of digits with a sign. */
  lemma SignedBigInt(negative: bool, digits: string)
    requires AllDigits(digits) && digits != []
    ensures var n: int := Number(digits);
            ParseBigInt([if negative then '-' else '+'] + digits) == Amount(if negative then -n else n)
  {
    hide Trim, BigEndian;
    var s := [if negative then '-' else '+'] + digits;
    UnpaddedEnds(s);
    assert s[1..] == digits;
  }

  lemma SplitParts(first: string, dot: bool, second: string)
    requires Solid(first) && Solid(second) && (!dot ==> second == [])
    ensures Split(first + if dot then "." + second else "") == (first, second)
  {
    hide Solid, BeforeDot;
    var rest := if dot then "." + second else "";
    SolidBeforeDot(first, rest);
    if dot {
      assert (first + rest)[|first| + 1..] == second;
      SolidBeforeDot(second, []);
      assert second + [] == second;
    }
  }

  lemma SplitSigned(negative: bool, whole: string, dot: bool, frac: string)
    requires AllDigits(whole) && whole != [] && AllDigits(frac) && (!dot ==> frac == [])
    ensures var sign := [if negative then '-' else '+'];
            Split(sign + DecimalText(whole, dot, frac)) == (sign + whole, frac)
            && Trim(sign + DecimalText(whole, dot, frac)) == sign + DecimalText(whole, dot, frac)
  {
    hide Trim, Split;
    var sign := [if negative then '-' else '+'];
    var text := sign + DecimalText(whole, dot, frac);
    SplitParts(sign + whole, dot, frac);
    assert text == (sign + whole) + if dot then "." + frac else "";
    UnpaddedEnds(text);
  }

  /** A sign counts for the whole part only: the fraction of a negative text is added. */
  lemma SignedDecimalText(negative: bool, whole: string, dot: bool, frac: string)
    requires AllDigits(whole) && whole != [] && AllDigits(frac) && (!dot ==> frac == [])
    ensures var n: int := Number(whole);
            ParseLgUsd([if negative then '-' else '+'] + DecimalText(whole, dot, frac))
            == Amount((if negative then -n else n) * 1_000_000 + Number(SixPlaces(frac)))
  {
    hide Trim, Split, ParseBigInt, Number, DecimalText;
    SplitSigned(negative, whole, dot, frac);
    SignedBigInt(negative, whole);
    BigIntOfDigits(SixPlaces(frac));
  }

  /** A numeral that starts with a digit other than zero and has a character that is none is refused. */
  lemma ForeignDigitRefused(s: string, i: nat)
    requires Solid(s) && i < |s| && '1' <= s[0] <= '9' && !IsDigit(s[i])
    ensures ParseLgUsd(s) == SyntaxError
  {
    WholeText(s);
    SolidStays(s);
    assert DigitValue(s[i]) >= 10;
  }

  /** With the prefixes of other bases a numeral is read in those. */
  lemma PrefixedText(prefix: string, digits: string)
    requires Solid(digits) && digits != []
    requires prefix in ["0x", "0X", "0o", "0O", "0b", "0B"]
    ensures var base := if prefix[1] in "xX" then 16 else if prefix[1] in "oO" then 8 else 2;
            ParseLgUsd(prefix + digits)
            == if forall i | 0 <= i < |digits| :: DigitValue(digits[i]) < base
               then Amount(BigEndian(DigitValues(digits), base) * 1_000_000) else SyntaxError
  {
    hide Trim, ParseLgUsd, BigEndian, DigitValue;
    var s := prefix + digits;
    assert s[2..] == digits;
    WholeText(s);
    SolidStays(s);
  }
}
