/** Ika message approvals: the byte layouts, the two parsers and the demo writer they must undo. */
module Approvals {
  import opened Prelude
  import opened Numerals

  const PROOF_EXPIRY_SECONDS := 600

  const REAL_DISCRIMINATOR := 14
  const REAL_VERSION := 1
  const REAL_MIN_LEN := 142
  const REAL_SCHEME_SECP256K1 := 1
  const STATUS_SIGNED := 1
  const DEMO_LEN := 49

  datatype Source = RealIka | DemoHelper

  datatype Approval = Approval(dwalletId: seq<u8>, approvedAt: i64, isSigned: bool, source: Source)

  /** `i64::to_le_bytes`: two's complement, least significant byte first. */
  function ToLeBytes(x: i64): (bytes: seq<u8>)
    ensures |bytes| == 8
  {
    FixedDigits(if x < 0 then x + 2 * I64_LIMIT else x, 256, 8)
  }

  /** `i64::from_le_bytes`. */
  function FromLeBytes(bytes: seq<u8>): i64
    requires |bytes| == 8
  {
    EightBytes(bytes);
    var raw: int := Value(bytes, 256);
    if raw < I64_LIMIT then raw else raw - 2 * I64_LIMIT
  }

  lemma PowerOfEight()
    ensures Power(256, 8) == 2 * I64_LIMIT
  {
    assert Power(256, 2) == 0x1_0000;
    assert Power(256, 4) == 0x1_0000 * Power(256, 2);
    assert Power(256, 6) == 0x1_0000 * Power(256, 4);
  }

  lemma EightBytes(bytes: seq<u8>)
    requires |bytes| == 8
    ensures Value(bytes, 256) < 2 * I64_LIMIT
  {
    ValueBelowPower(bytes, 256);
    PowerOfEight();
  }

  lemma LeBytesRoundTrip(x: i64)
    ensures FromLeBytes(ToLeBytes(x)) == x
  {
    PowerOfEight();
    FixedDigitsValue(if x < 0 then x + 2 * I64_LIMIT else x, 256, 8);
  }

  lemma LeBytesRoundTripBack(bytes: seq<u8>)
    requires |bytes| == 8
    ensures ToLeBytes(FromLeBytes(bytes)) == bytes
  {
    EightBytes(bytes);
    FixedDigitsOfValue(bytes, 256);
  }

  function ParseReal(data: seq<u8>, expected: Bytes32): Result<Approval> {
    if |data| < REAL_MIN_LEN then Err(InvalidMessageApproval) else
    :- Require(data[1] == REAL_VERSION, InvalidMessageApproval);
    var isSigned := data[139] == STATUS_SIGNED;
    :- Require(isSigned, InvalidMessageApproval);
    :- Require(data[2..34] == expected, DWalletMismatch);
    Ok(Approval(data[2..34], 0, isSigned, RealIka))
  }

  function ParseDemo(data: seq<u8>, expected: Bytes32, now: i64): Result<Approval> {
    if |data| != DEMO_LEN then Err(InvalidMessageApproval) else
    var approvedAt := FromLeBytes(data[40..48]);
    var isSigned := data[48] == STATUS_SIGNED;
    :- Require(isSigned, InvalidMessageApproval);
    :- Require(data[8..40] == expected, DWalletMismatch);
    var age :- MinusI64(now, approvedAt);
    :- Require(age <= PROOF_EXPIRY_SECONDS, ProofExpired);
    Ok(Approval(data[8..40], approvedAt, isSigned, DemoHelper))
  }

  /** The parser of the SOL path. */
  function ParseMessageApproval(data: seq<u8>, expected: Bytes32, now: i64): Result<Approval> {
    if data == [] then Err(InvalidMessageApproval) else
    if data[0] == REAL_DISCRIMINATOR then ParseReal(data, expected)
    else if |data| == DEMO_LEN then ParseDemo(data, expected, now)
    else Err(InvalidMessageApproval)
  }

  /** The parser of the Bitcoin path. */
  function ParseForBtcDwallet(data: seq<u8>, expected: Bytes32, now: i64): Result<Approval> {
    if data == [] then Err(InvalidMessageApproval) else
    if data[0] == REAL_DISCRIMINATOR && |data| >= REAL_MIN_LEN then
      :- Require(data[1] == REAL_VERSION, InvalidMessageApproval);
      :- Require(data[2..34] == expected, DWalletMismatch);
      :- Require(data[98] == REAL_SCHEME_SECP256K1, InvalidMessageApproval);
      :- Require(data[139] == STATUS_SIGNED, InvalidMessageApproval);
      Ok(Approval(data[2..34], 0, true, RealIka))
    else if |data| == DEMO_LEN then
      :- Require(data[8..40] == expected, DWalletMismatch);
      var approvedAt := FromLeBytes(data[40..48]);
      var isSigned := data[48] == STATUS_SIGNED;
      :- Require(isSigned, InvalidMessageApproval);
      var age :- MinusI64(now, approvedAt);
      :- Require(age <= PROOF_EXPIRY_SECONDS, ProofExpired);
      Ok(Approval(data[8..40], approvedAt, isSigned, DemoHelper))
    else Err(InvalidMessageApproval)
  }

  /** The bytes of a demo approval. */
  function DemoLayout(dwalletId: Bytes32, approvedAt: i64, isSigned: bool): (data: seq<u8>)
    ensures |data| == DEMO_LEN
  {
    seq(8, i => 0) + dwalletId + ToLeBytes(approvedAt) + [if isSigned then 1 else 0]
  }

  /** Fill an account's data with a demo approval, field by field. */
  method DemoCreateMessageApproval(data: array<u8>, now: i64, dwalletId: Bytes32, isSigned: bool)
    returns (r: Result<()>)
    modifies data
    ensures data.Length == DEMO_LEN ==> r == Ok(()) && data[..] == DemoLayout(dwalletId, now, isSigned)
    ensures data.Length != DEMO_LEN ==> r == Err(InvalidMessageApproval) && data[..] == old(data[..])
  {
    if data.Length != DEMO_LEN {
      return Err(InvalidMessageApproval);
    }
    for b := 0 to 8
      invariant forall i | 0 <= i < b :: data[i] == 0
    {
      data[b] := 0;
    }
    forall i | 0 <= i < 32 {
      data[8 + i] := dwalletId[i];
    }
    var stamp := ToLeBytes(now);
    forall i | 0 <= i < 8 {
      data[40 + i] := stamp[i];
    }
    data[48] := if isSigned then 1 else 0;
    assert data[..8] == seq(8, i => 0);
    assert data[8..40] == dwalletId;
    assert data[40..48] == stamp;
    assert data[..] == data[..8] + data[8..40] + data[40..48] + [data[48]];
    return Ok(());
  }

  /** The bytes of the demo layout, by their offsets. */
  lemma LayoutFields(dwalletId: Bytes32, approvedAt: i64, isSigned: bool)
    ensures var data := DemoLayout(dwalletId, approvedAt, isSigned);
            |data| == 49
            && (forall i | 0 <= i < 8 :: data[i] == 0)
            && data[8..40] == dwalletId
            && data[40..48] == ToLeBytes(approvedAt)
            && data[48] == if isSigned then 1 else 0
  {
  }

  /** Eight bytes as an unsigned number, the lowest first. */
  function Unsigned(b: seq<u8>): int
    requires |b| == 8
  {
    var b0: int, b1: int, b2: int, b3: int := b[0], b[1], b[2], b[3];
    var b4: int, b5: int, b6: int, b7: int := b[4], b[5], b[6], b[7];
    b0 + 0x100 * b1 + 0x1_0000 * b2 + 0x100_0000 * b3 + 0x1_0000_0000 * b4
    + 0x100_0000_0000 * b5 + 0x1_0000_0000_0000 * b6 + 0x100_0000_0000_0000 * b7
  }

  /** The eight bytes of a time are its two's complement. */
  lemma LeBytesMeaning(x: i64)
    ensures Unsigned(ToLeBytes(x)) == if x < 0 then x + 0x1_0000_0000_0000_0000 else x
  {
    var b := ToLeBytes(x);
    PowerOfEight();
    FixedDigitsValue(if x < 0 then x + 2 * I64_LIMIT else x, 256, 8);
    assert Value(b, 256) == b[0] + 256 * Value(b[1..], 256);
    assert Value(b[1..], 256) == b[1] + 256 * Value(b[2..], 256) by { assert b[1..][1..] == b[2..]; }
    assert Value(b[2..], 256) == b[2] + 256 * Value(b[3..], 256) by { assert b[2..][1..] == b[3..]; }
    assert Value(b[3..], 256) == b[3] + 256 * Value(b[4..], 256) by { assert b[3..][1..] == b[4..]; }
    assert Value(b[4..], 256) == b[4] + 256 * Value(b[5..], 256) by { assert b[4..][1..] == b[5..]; }
    assert Value(b[5..], 256) == b[5] + 256 * Value(b[6..], 256) by { assert b[5..][1..] == b[6..]; }
    assert Value(b[6..], 256) == b[6] + 256 * Value(b[7..], 256) by { assert b[6..][1..] == b[7..]; }
    assert Value(b[7..], 256) == b[7] by { assert b[7..][1..] == []; }
  }

  /** The times at which a recorded approval is fresh; approvals dated in the future are. */
  predicate IsFresh(approvedAt: i64, now: i64) {
    -I64_LIMIT <= now - approvedAt <= 600
  }

  /** Both parsers accept what the writer wrote exactly when signed, matching and fresh. */
  lemma WrittenApprovalParses(dwalletId: Bytes32, approvedAt: i64, isSigned: bool, expected: Bytes32, now: i64)
    ensures var data := DemoLayout(dwalletId, approvedAt, isSigned);
            var accepted := isSigned && dwalletId == expected && IsFresh(approvedAt, now);
            var approval := Ok(Approval(dwalletId, approvedAt, true, DemoHelper));
            (ParseMessageApproval(data, expected, now).Ok? <==> accepted)
            && (ParseForBtcDwallet(data, expected, now).Ok? <==> accepted)
            && (accepted ==> ParseMessageApproval(data, expected, now) == approval
                             && ParseForBtcDwallet(data, expected, now) == approval)
  {
    LayoutFields(dwalletId, approvedAt, isSigned);
    LeBytesRoundTrip(approvedAt);
  }

  /** Conversely a demo approval either parser accepts is, after its first 8 bytes, one the writer writes. */
  lemma AcceptedDemoWasWritten(data: seq<u8>, expected: Bytes32, now: i64)
    ensures var sol := ParseMessageApproval(data, expected, now);
            sol.Ok? && sol.value.source.DemoHelper? ==>
              |data| == DEMO_LEN && IsFresh(sol.value.approvedAt, now)
              && data[8..] == DemoLayout(expected, sol.value.approvedAt, true)[8..]
    ensures var btc := ParseForBtcDwallet(data, expected, now);
            btc.Ok? && btc.value.source.DemoHelper? ==>
              |data| == DEMO_LEN && IsFresh(btc.value.approvedAt, now)
              && data[8..] == DemoLayout(expected, btc.value.approvedAt, true)[8..]
  {
    if |data| == DEMO_LEN {
      LeBytesRoundTripBack(data[40..48]);
      assert data[8..] == data[8..40] + data[40..48] + [data[48]];
    }
  }

  /** The parsers return the same approval except on two families of buffers, one for each side. */
  lemma ParsersDiffer(data: seq<u8>, expected: Bytes32, now: i64)
    ensures var sol, btc := ParseMessageApproval(data, expected, now), ParseForBtcDwallet(data, expected, now);
            (sol.Ok? && btc.Ok? ==> sol == btc)
            && (sol.Ok? && btc.Err? <==> sol.Ok? && sol.value.source.RealIka? && data[98] != REAL_SCHEME_SECP256K1)
            && (btc.Ok? && sol.Err? <==> btc.Ok? && btc.value.source.DemoHelper? && data[0] == REAL_DISCRIMINATOR)
  {
    if |data| == DEMO_LEN {
      LeBytesRoundTripBack(data[40..48]);
    }
  }

  // ---- real approvals ----

  /** An account of the Ika program: what stands between the fields the parsers read is free. */
  function RealLayout(version: u8, dwallet: Bytes32, hashAndKey: seq<u8>, scheme: u8, programs: seq<u8>, status: u8,
                      rest: seq<u8>): seq<u8>
  {
    [14, version] + dwallet + hashAndKey + [scheme] + programs + [status] + rest
  }

  /** The free parts have the lengths that put the scheme at offset 98 and the status at 139, 142 bytes in all. */
  predicate RealParts(hashAndKey: seq<u8>, programs: seq<u8>, rest: seq<u8>) {
    |hashAndKey| == 64 && |programs| == 40 && 2 <= |rest|
  }

  lemma RealFields(version: u8, dwallet: Bytes32, hashAndKey: seq<u8>, scheme: u8, programs: seq<u8>, status: u8,
                   rest: seq<u8>)
    requires RealParts(hashAndKey, programs, rest)
    ensures var data := RealLayout(version, dwallet, hashAndKey, scheme, programs, status, rest);
            142 <= |data| && data[0] == 14 && data[1] == version && data[2..34] == dwallet
            && data[98] == scheme && data[139] == status
  {
  }

  /** A real approval is accepted exactly when its version is 1, it is signed and names the dWallet, and on the
      Bitcoin path also its scheme is 1; its time is not checked and returned as 0. Why one is refused, the error
      tells. */
  lemma RealApprovalParses(version: u8, dwallet: Bytes32, hashAndKey: seq<u8>, scheme: u8, programs: seq<u8>,
                           status: u8, rest: seq<u8>, expected: Bytes32, now: i64)
    requires RealParts(hashAndKey, programs, rest)
    ensures var data := RealLayout(version, dwallet, hashAndKey, scheme, programs, status, rest);
            var sol, btc := ParseMessageApproval(data, expected, now), ParseForBtcDwallet(data, expected, now);
            var approval := Ok(Approval(dwallet, 0, true, RealIka));
            sol == (if version != 1 || status != 1 then Err(InvalidMessageApproval)
                    else if dwallet != expected then Err(DWalletMismatch) else approval)
            && btc == (if version != 1 then Err(InvalidMessageApproval)
                       else if dwallet != expected then Err(DWalletMismatch)
                       else if scheme != 1 || status != 1 then Err(InvalidMessageApproval) else approval)
  {
    RealFields(version, dwallet, hashAndKey, scheme, programs, status, rest);
  }

  /** Every buffer with 14 in front and of 142 bytes or more has the layout; a shorter one is refused, but for a
      demo approval on the Bitcoin path. */
  lemma RealBuffers(data: seq<u8>, expected: Bytes32, now: i64)
    requires data != [] && data[0] == 14
    ensures 142 <= |data| ==>
              RealParts(data[34..98], data[99..139], data[140..])
              && data == RealLayout(data[1], data[2..34], data[34..98], data[98], data[99..139], data[139], data[140..])
    ensures |data| < 142 ==> ParseMessageApproval(data, expected, now) == Err(InvalidMessageApproval)
    ensures |data| < 142 && |data| != 49 ==> ParseForBtcDwallet(data, expected, now) == Err(InvalidMessageApproval)
  {
  }

  /** Conversely a real approval either parser accepts is such a buffer with version, status and dWallet as
      required, and any other buffer is a demo approval or refused. */
  lemma AcceptedRealIsLayout(data: seq<u8>, expected: Bytes32, now: i64)
    ensures var sol := ParseMessageApproval(data, expected, now);
            sol.Ok? && sol.value.source.RealIka? ==>
              142 <= |data| && data == RealLayout(1, expected, data[34..98], data[98], data[99..139], 1, data[140..])
    ensures var btc := ParseForBtcDwallet(data, expected, now);
            btc.Ok? && btc.value.source.RealIka? ==>
              142 <= |data| && data == RealLayout(1, expected, data[34..98], 1, data[99..139], 1, data[140..])
    ensures data == [] || (data[0] != 14 && |data| != 49) ==>
              ParseMessageApproval(data, expected, now) == Err(InvalidMessageApproval)
              && ParseForBtcDwallet(data, expected, now) == Err(InvalidMessageApproval)
  {
    if data != [] && data[0] == 14 {
      RealBuffers(data, expected, now);
    }
  }
}
