/**
 Base-58 decoding of transaction signatures: the carry loop, proved against base conversion through
 natural numbers, and the fact that it is a bijection between strings over the alphabet and bytes.
 */
module Base58 {
  import opened Prelude
  import opened FloorArithmetic
  import opened Numerals

  /** The 58 characters, split where consecutive characters are left out. */
  const ALPHABET :=
    "123456789" + "ABCDEFGH" + "JKLMN" + "PQRSTUVWXYZ" + "abcdefghijk" + "mnopqrstuvwxyz"

  datatype Lookup = Found(index: nat) | Missing

  datatype Decoded = Bytes(bytes: seq<u8>) | InvalidChar(c: char)

  /** The last of the first `n` positions of the alphabet holding `c`. */
  function Find(c: char, n: nat): (r: Lookup)
    requires n <= |ALPHABET|
    ensures r.Found? ==> r.index < n && ALPHABET[r.index] == c
    ensures r.Missing? ==> c !in ALPHABET[..n]
  {
    if n == 0 then Missing
    else if ALPHABET[n - 1] == c then Found(n - 1)
    else Find(c, n - 1)
  }

  function Rank(c: char): Lookup {
    Find(c, |ALPHABET|)
  }

  ghost predicate OverAlphabet(s: string) {
    forall i | 0 <= i < |s| :: s[i] in ALPHABET
  }

  function Ranks(s: string): (ranks: seq<nat>)
    requires forall i | 0 <= i < |s| :: Rank(s[i]).Found?
    ensures |ranks| == |s|
    ensures forall i | 0 <= i < |s| :: ranks[i] < 58 && Rank(s[i]) == Found(ranks[i])
  {
    seq(|s|, i requires 0 <= i < |s| => Rank(s[i]).index)
  }

  function LeadingZeros(digits: seq<nat>): (z: nat)
    ensures z <= |digits|
    ensures forall i | 0 <= i < z :: digits[i] == 0
    ensures z < |digits| ==> digits[z] != 0
  {
    if digits != [] && digits[0] == 0 then 1 + LeadingZeros(digits[1..]) else 0
  }

  function Zeros(n: nat): seq<nat> {
    seq(n, i => 0)
  }

  /** Base conversion, most significant digit first, keeping the number of leading zeros. */
  function Convert(digits: seq<nat>, from: nat, to: nat): seq<nat>
    requires 2 <= to
  {
    var z := LeadingZeros(digits);
    Zeros(z) + Reverse(Digits(BigEndian(digits[z..], from), to))
  }

  lemma ConvertStaysBelow(digits: seq<nat>, from: nat, to: nat)
    requires 2 <= to
    ensures IsBelow(Convert(digits, from, to), to)
  {
    DigitsAreCanonical(BigEndian(digits[LeadingZeros(digits)..], from), to);
  }

  lemma {:induction false} LeadingZerosAre(digits: seq<nat>, z: nat)
    requires z <= |digits|
    requires forall i | 0 <= i < z :: digits[i] == 0
    requires z < |digits| ==> digits[z] != 0
    ensures LeadingZeros(digits) == z
  {
    if z > 0 {
      LeadingZerosAre(digits[1..], z - 1);
    }
  }

  /** The value of a converted numeral, and what its leading zeros and its rest are. */
  lemma Converted(digits: seq<nat>, from: nat, to: nat)
    requires 2 <= to
    ensures var z := LeadingZeros(digits);
            var converted := Convert(digits, from, to);
            LeadingZeros(converted) == z <= |converted|
            && BigEndian(converted[z..], to) == BigEndian(digits[z..], from)
  {
    var z := LeadingZeros(digits);
    var low := Digits(BigEndian(digits[z..], from), to);
    DigitsAreCanonical(BigEndian(digits[z..], from), to);
    ValueOfDigits(BigEndian(digits[z..], from), to);
    LeadingZerosAre(Zeros(z) + Reverse(low), z);
    assert (Zeros(z) + Reverse(low))[z..] == Reverse(low);
    BigEndianReverses(Reverse(low), to);
    ReverseTwice(low);
  }

  lemma SplitLeadingZeros(digits: seq<nat>)
    ensures digits == Zeros(LeadingZeros(digits)) + digits[LeadingZeros(digits)..]
  {
  }

  /** Converting there and back is the identity, leading zeros included. */
  lemma ConvertRoundTrip(digits: seq<nat>, from: nat, to: nat)
    requires 2 <= from && 2 <= to && IsBelow(digits, from)
    ensures Convert(Convert(digits, from, to), to, from) == digits
  {
    var rest := digits[LeadingZeros(digits)..];
    Converted(digits, from, to);
    assert Reverse(Digits(BigEndian(rest, from), from)) == rest by {
      BigEndianReverses(rest, from);
      CanonicalIsUnique(Reverse(rest), from);
      ReverseTwice(rest);
    }
    SplitLeadingZeros(digits);
  }

  /** The first character of `s` outside the alphabet. */
  function FirstForeign(s: string): (at: nat)
    ensures at <= |s|
    ensures forall i | 0 <= i < at :: Rank(s[i]).Found?
    ensures at < |s| ==> Rank(s[at]).Missing?
  {
    if s == [] || Rank(s[0]).Missing? then 0 else 1 + FirstForeign(s[1..])
  }

  /** What decoding must return. */
  ghost function Decode(s: string): Decoded {
    var at := FirstForeign(s);
    if at < |s| then InvalidChar(s[at])
    else
      ConvertStaysBelow(Ranks(s), 58, 256);
      Bytes(Convert(Ranks(s), 58, 256))
  }

  /** The inverse of decoding. */
  ghost function Encode(bytes: seq<u8>): string {
    ConvertStaysBelow(bytes, 256, 58);
    var ranks := Convert(bytes, 256, 58);
    seq(|ranks|, i requires 0 <= i < |ranks| => ALPHABET[ranks[i]])
  }

  /** The alphabet is six runs of consecutive characters. */
  function AlphabetAt(i: nat): char
    requires i < 58
  {
    if i < 9 then '1' + i as char
    else if i < 17 then 'A' + (i - 9) as char
    else if i < 22 then 'J' + (i - 17) as char
    else if i < 33 then 'P' + (i - 22) as char
    else if i < 44 then 'a' + (i - 33) as char
    else 'm' + (i - 44) as char
  }

  lemma AlphabetIsRuns(i: nat)
    requires i < 58
    ensures ALPHABET[i] == AlphabetAt(i)
  {
  }

  lemma AlphabetNeighbours(i: nat)
    requires i < 57
    ensures ALPHABET[i] < ALPHABET[i + 1]
  {
    hide ALPHABET;
    AlphabetIsRuns(i);
    AlphabetIsRuns(i + 1);
  }

  lemma {:induction false} AlphabetAscends(i: nat, j: nat)
    requires i < j < 58
    ensures ALPHABET[i] < ALPHABET[j]
  {
    AlphabetNeighbours(j - 1);
    if i < j - 1 {
      AlphabetAscends(i, j - 1);
    }
  }

  /** A letter or digit of ASCII other than those that look alike: zero, capital o, capital i and small l. */
  predicate IsBase58(c: char) {
    ('1' <= c <= '9') || ('A' <= c <= 'Z' && c != 'I' && c != 'O') || ('a' <= c <= 'z' && c != 'l')
  }

  /** The alphabet is those 58 characters, each once, in ascending order. */
  lemma AlphabetIs(c: char)
    ensures |ALPHABET| == 58
    ensures c in ALPHABET <==> IsBase58(c)
    ensures forall i, j | 0 <= i < j < 58 :: ALPHABET[i] < ALPHABET[j]
  {
    if c in ALPHABET {
      var i :| 0 <= i < 58 && ALPHABET[i] == c;
      AlphabetIsRuns(i);
    }
    if IsBase58(c) {
      var n := c as int;
      var i := if c <= '9' then n - 49 else if c <= 'H' then n - 56 else if c <= 'N' then n - 57
               else if c <= 'Z' then n - 58 else if c <= 'k' then n - 64 else n - 65;
      AlphabetIsRuns(i);
    }
    forall i, j | 0 <= i < j < 58 ensures ALPHABET[i] < ALPHABET[j] {
      AlphabetAscends(i, j);
    }
  }

  lemma RankOfAlphabet(i: nat)
    requires i < 58
    ensures Rank(ALPHABET[i]) == Found(i)
  {
    assert ALPHABET[i] in ALPHABET[..58];
    var j := Rank(ALPHABET[i]).index;
    if i < j {
      AlphabetAscends(i, j);
    } else if j < i {
      AlphabetAscends(j, i);
    }
  }

  lemma RankOfEncoded(bytes: seq<u8>, i: nat)
    requires i < |Encode(bytes)|
    ensures Rank(Encode(bytes)[i]) == Found(Convert(bytes, 256, 58)[i])
  {
    ConvertStaysBelow(bytes, 256, 58);
    RankOfAlphabet(Convert(bytes, 256, 58)[i]);
  }

  /** Every byte sequence is the decoding of its encoding. */
  lemma DecodeEncode(bytes: seq<u8>)
    ensures Decode(Encode(bytes)) == Bytes(bytes)
  {
    var s := Encode(bytes);
    forall i | 0 <= i < |s|
      ensures Rank(s[i]) == Found(Convert(bytes, 256, 58)[i])
    {
      RankOfEncoded(bytes, i);
    }
    assert Ranks(s) == Convert(bytes, 256, 58);
    ConvertRoundTrip(bytes, 256, 58);
  }

  /** Decoding succeeds exactly on strings over the alphabet, and there nothing is lost. */
  lemma EncodeDecode(s: string)
    ensures Decode(s).Bytes? <==> OverAlphabet(s)
    ensures Decode(s).Bytes? ==> Encode(Decode(s).bytes) == s
  {
    forall i | 0 <= i < |s|
      ensures s[i] in ALPHABET <==> Rank(s[i]).Found?
    {
      assert ALPHABET[..58] == ALPHABET;
    }
    if Decode(s).Bytes? {
      ConvertRoundTrip(Ranks(s), 58, 256);
    }
  }

  /** Leading zero bytes count the leading '1's, the rest is the minimal form of the same number. */
  lemma DecodedForm(s: string, ones: nat)
    requires OverAlphabet(s) && ones <= |s|
    requires forall i | 0 <= i < ones :: s[i] == '1'
    requires ones < |s| ==> s[ones] != '1'
    ensures Decode(s).Bytes?
    ensures var bytes := Decode(s).bytes;
            ones <= |bytes|
            && (forall i | 0 <= i < ones :: bytes[i] == 0)
            && (ones < |bytes| ==> bytes[ones] != 0)
            && BigEndian(bytes[ones..], 256) == BigEndian(Ranks(s)[ones..], 58)
  {
    EncodeDecode(s);
    RankOfAlphabet(0);
    var ranks := Ranks(s);
    assert ones < |s| ==> ranks[ones] != 0;
    assert forall i | 0 <= i < ones :: Rank(s[i]) == Found(0);
    LeadingZerosAre(ranks, ones);
    Converted(ranks, 58, 256);
  }

  /** What the inner loop still has to add up: the cells done, and the carry above the cells to do. */
  ghost function Pending(done: seq<nat>, carry: nat, todo: seq<nat>): nat {
    Value(done, 256) + Power(256, |done|) * (carry + 58 * Value(todo, 256))
  }

  lemma CarryArithmetic(p: nat, low: nat, high: nat, cell: nat, carry: nat, rest: nat)
    requires carry + 58 * cell == low + 256 * high
    ensures p * low + 256 * p * (high + 58 * rest) == p * (carry + 58 * (cell + 256 * rest))
  {
    var y := high + 58 * rest;
    assert carry + 58 * (cell + 256 * rest) == low + 256 * y;
    assert p * (low + 256 * y) == p * low + p * (256 * y);
  }

  /** The inner step keeps the low byte of carry + 58 * cell and carries the rest, at most 57. */
  lemma CarryStep(done: seq<nat>, carry: nat, todo: seq<nat>)
    requires carry <= 57 && todo != [] && todo[0] < 256
    ensures var sum := carry + todo[0] * 58;
            sum / 256 <= 57
            && Pending(done + [sum % 256], sum / 256, todo[1..]) == Pending(done, carry, todo)
  {
    var sum := carry + todo[0] * 58;
    DivBelow(sum, 256, 58);
    ValueOfConcatenation(done, [sum % 256], 256);
    PowerOfLonger(done, sum % 256);
    CarryArithmetic(Power(256, |done|), sum % 256, sum / 256, todo[0], carry, Value(todo[1..], 256));
  }

  lemma PowerOfLonger(done: seq<nat>, cell: nat)
    ensures Power(256, |done + [cell]|) == 256 * Power(256, |done|)
    ensures Value([cell], 256) == cell
  {
    assert [cell][1..] == [];
  }

  lemma PushCarry(out: seq<nat>, carry: nat)
    requires carry <= 57
    ensures carry / 256 == 0 && carry % 256 == carry
    ensures Pending(out + [carry], 0, []) == Pending(out, carry, [])
  {
    ValueOfConcatenation(out, [carry], 256);
    PowerOfLonger(out, carry);
  }

  lemma PendingEnds(done: seq<nat>, carry: nat, todo: seq<nat>)
    ensures Pending([], carry, todo) == carry + 58 * Value(todo, 256)
    ensures Pending(done, 0, []) == Value(done, 256)
  {
  }

  /** Without its zero top cell a number of n cells is below 256^(n-1); with a nonzero one it is not. */
  lemma TopCellBounds(cells: seq<nat>)
    requires IsBelow(cells, 256) && cells != []
    ensures var p := Power(256, |cells| - 1);
            if cells[|cells| - 1] == 0 then Value(cells, 256) < p else p <= Value(cells, 256)
  {
    var top := |cells| - 1;
    assert cells == cells[..top] + [cells[top]];
    ValueOfConcatenation(cells[..top], [cells[top]], 256);
    PowerOfLonger(cells[..top], cells[top]);
    ValueBelowPower(cells[..top], 256);
    if cells[top] != 0 {
      MulMonotone(1, cells[top], Power(256, top));
    }
  }

  /** Multiply the little-endian number `cells` by 58 and add a digit. */
  method Accumulate(cells: seq<u8>, v: nat) returns (out: seq<u8>)
    requires v < 58
    requires cells == [] || cells[|cells| - 1] != 0
    ensures Value(out, 256) == 58 * Value(cells, 256) + v
    ensures out == [] || out[|out| - 1] != 0
    ensures |cells| <= |out| <= |cells| + 1
  {
    hide Pending, Value, Power;
    out := cells;
    var carry: nat := v;
    var i := 0;
    ghost var done: seq<u8> := [];
    ghost var total := Pending([], v, cells);
    PendingEnds([], v, cells);
    while i < |out|
      invariant 0 <= i == |done| <= |out| == |cells|
      invariant out == done + cells[i..]
      invariant carry <= 57
      invariant Pending(done, carry, cells[i..]) == total
    {
      CarryStep(done, carry, cells[i..]);
      assert cells[i..][1..] == cells[i + 1..];
      var cell: int := out[i];
      var sum: int := carry + cell * 58;
      out := out[i := sum % 256];
      carry := sum / 256;
      done := done + [sum % 256];
      i := i + 1;
    }
    assert out == done && cells[i..] == [];
    while carry > 0
      invariant carry <= 57
      invariant |cells| <= |out| <= |cells| + 1
      invariant carry > 0 ==> |out| == |cells|
      invariant Pending(out, carry, []) == total
      invariant |out| > |cells| ==> out[|out| - 1] != 0
    {
      PushCarry(out, carry);
      out := out + [carry % 256];
      carry := carry / 256;
    }
    PendingEnds(out, 0, []);
    if |out| == |cells| && out != [] {
      TopCellBounds(cells);
      TopCellBounds(out);
    }
  }

  /** The cells computed for the digits after the leading ones are what decoding must return. */
  lemma CellsAreDecoding(s: string, ones: nat, digits: seq<nat>, cells: seq<u8>)
    requires ones + |digits| == |s|
    requires forall i | 0 <= i < ones :: s[i] == '1'
    requires forall i | ones <= i < |s| :: Rank(s[i]) == Found(digits[i - ones])
    requires ones < |s| ==> s[ones] != '1'
    requires Value(cells, 256) == BigEndian(digits, 58)
    requires cells == [] || cells[|cells| - 1] != 0
    ensures Decode(s) == Bytes(Zeros(ones) + Reverse(cells))
  {
    hide Value, Power, BigEndian, Reverse;
    RankOfAlphabet(0);
    assert forall i | 0 <= i < |s| :: Rank(s[i]).Found?;
    var ranks := Ranks(s);
    assert ranks[ones..] == digits;
    LeadingZerosAre(ranks, ones);
    CanonicalIsUnique(cells, 256);
  }

  lemma {:induction false} FirstForeignIs(s: string, at: nat)
    requires at < |s| && Rank(s[at]).Missing?
    requires forall i | 0 <= i < at :: Rank(s[i]).Found?
    ensures FirstForeign(s) == at
  {
    if at > 0 {
      FirstForeignIs(s[1..], at - 1);
    }
  }

  /** A string with a character outside the alphabet is refused, and the first such character named. */
  lemma RefusalNamesFirst(s: string, at: nat)
    requires at < |s| && !IsBase58(s[at]) && forall i | 0 <= i < at :: IsBase58(s[i])
    ensures Decode(s) == InvalidChar(s[at])
  {
    forall i | 0 <= i <= at
      ensures Rank(s[i]).Found? <==> IsBase58(s[i])
    {
      AlphabetIs(s[i]);
      assert ALPHABET[..58] == ALPHABET;
    }
    FirstForeignIs(s, at);
  }

  /** The whole decoder. */
  method Bs58Decode(s: string) returns (r: Decoded)
    ensures r == Decode(s)
    ensures r.Bytes? ==> |r.bytes| <= |s|
  {
    var zeros := 0;
    while zeros < |s| && s[zeros] == '1'
      invariant 0 <= zeros <= |s|
      invariant forall i | 0 <= i < zeros :: s[i] == '1'
    {
      zeros := zeros + 1;
    }

    var b58: seq<nat> := [];
    var at := zeros;
    while at < |s|
      invariant zeros <= at <= |s|
      invariant |b58| == at - zeros
      invariant forall i | zeros <= i < at :: Rank(s[i]) == Found(b58[i - zeros])
      invariant forall i | 0 <= i < |b58| :: b58[i] < 58
    {
      var v := Rank(s[at]);
      if v.Missing? {
        RankOfAlphabet(0);
        FirstForeignIs(s, at);
        return InvalidChar(s[at]);
      }
      b58 := b58 + [v.index];
      at := at + 1;
    }

    var out: seq<u8> := [];
    var j := 0;
    while j < |b58|
      invariant 0 <= j <= |b58|
      invariant Value(out, 256) == BigEndian(b58[..j], 58)
      invariant out == [] || out[|out| - 1] != 0
      invariant |out| <= j
    {
      out := Accumulate(out, b58[j]);
      assert b58[..j + 1][..j] == b58[..j];
      j := j + 1;
    }
    assert b58[..j] == b58;
    CellsAreDecoding(s, zeros, b58, out);
    r := Bytes(seq(zeros, i => 0) + Reverse(out));
  }
}
