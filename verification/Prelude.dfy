/** Machine integers, the program's errors and its checked arithmetic. */
module Prelude {
  import FloorArithmetic

  const U64_MAX := 0xFFFF_FFFF_FFFF_FFFF
  const U128_LIMIT := 0x1_0000_0000_0000_0000_0000_0000_0000_0000
  const I64_LIMIT := 0x8000_0000_0000_0000

  type u8 = x: int | 0 <= x < 0x100
  type u16 = x: int | 0 <= x < 0x1_0000
  type u32 = x: int | 0 <= x < 0x1_0000_0000
  type u64 = x: int | 0 <= x <= U64_MAX
  type u128 = x: int | 0 <= x < U128_LIMIT
  type i64 = x: int | -I64_LIMIT <= x < I64_LIMIT

  /** A 32-byte identifier: an account address or a dWallet id. */
  type Bytes32 = b: seq<u8> | |b| == 32 witness seq(32, i => 0)

  /** The all-zero key. */
  function DefaultKey(): Bytes32 {
    seq(32, i => 0)
  }

  datatype Error =
    | VaultNotVerified | VaultFrozen | ProtocolFrozen | ProofExpired | DWalletMismatch
    | InvalidMessageApproval | InsufficientCollateral | InvalidAssetType | UnauthorizedCaller
    | ArithmeticOverflow | InvalidTimestamp | VaultAlreadyVerified | InvalidWithdrawalAmount
    | InvalidDepositAmount | InvalidLendingPoolParameter | InvalidBorrowAmount
    | InsufficientPoolLiquidity | BorrowExceedsCollateralLtv | OutstandingDebt | InvalidRepayAmount
    | PriceFeedStale | PositionHealthy | NoOutstandingDebt | SelfLiquidation
    | InsufficientCollateralLamports | InvalidDwalletPubkey | InvalidBitcoinAddress
    | BitcoinAttestationStale | BitcoinAttestationMismatch | KeeperNotAuthorised
    | BtcVaultNotVerified | BtcVaultFrozen | BtcLiquidationNotInitiated
    | BtcLiquidationAlreadyInitiated | BitcoinConfirmationsInsufficient | InsufficientBtcCollateral
      // Raised by the runtime rather than by the program's own code.
    | AccountNotInitialized  // the account an instruction names does not exist
    | AccountInUse           // `init` of an account that exists
    | InsufficientFunds      // token transfer from an account that holds too little
    | TokenOverflow          // token transfer that would overflow the receiver
    | ArithmeticPanic        // unchecked operator, compiled with overflow checks
    | CpiFailed              // the Ika program rejected the approval

  datatype Result<+T> = Ok(value: T) | Err(error: Error) {
    predicate IsFailure() { Err? }

    function PropagateFailure<U>(): Result<U>
      requires Err?
    {
      Err(error)
    }

    function Extract(): T
      requires Ok?
    {
      value
    }
  }

  datatype Check = Pass | Fail(error: Error) {
    predicate IsFailure() { Fail? }

    /** The first of two checks to fail decides. */
    function Then(next: Check): Check {
      if Pass? then next else this
    }

    function PropagateFailure<U>(): Result<U>
      requires Fail?
    {
      Err(error)
    }
  }

  /** The program's `require!`. */
  function Require(condition: bool, error: Error): Check {
    if condition then Pass else Fail(error)
  }

  lemma ProductNonNegative(a: nat, b: nat)
    ensures 0 <= a * b
  {
  }

  /** `checked_mul` on a value that may have failed already. */
  function Times(a: Result<u128>, b: u128): Result<u128> {
    match a
    case Err(e) => Err(e)
    case Ok(x) =>
      ProductNonNegative(x, b);
      if x * b < U128_LIMIT then Ok(x * b) else Err(ArithmeticOverflow)
  }

  /** `checked_div` on a value that may have failed already. */
  function Over(a: Result<u128>, b: u128): Result<u128> {
    match a
    case Err(e) => Err(e)
    case Ok(x) => if b == 0 then Err(ArithmeticOverflow) else Ok(Quotient(x, b))
  }

  function Quotient(x: u128, b: u128): u128
    requires b != 0
  {
    QuotientBelow(x, b);
    x / b
  }

  lemma QuotientBelow(x: nat, d: nat)
    requires 0 < d
    ensures 0 <= x / d <= x
  {
    FloorArithmetic.MulMonotone(1, d, x + 1);
    FloorArithmetic.DivBelow(x, d, x + 1);
    FloorArithmetic.DivAtLeast(x, d, 0);
  }

  /** `checked_add` on a value that may have failed already. */
  function Plus(a: Result<u128>, b: u128): Result<u128> {
    match a
    case Err(e) => Err(e)
    case Ok(x) => if x + b < U128_LIMIT then Ok(x + b) else Err(ArithmeticOverflow)
  }

  /** `u64::try_from` on a value that may have failed already. */
  function ToU64(a: Result<u128>): Result<u64> {
    match a
    case Err(e) => Err(e)
    case Ok(x) => if x <= U64_MAX then Ok(x) else Err(ArithmeticOverflow)
  }

  /** The value of an unbounded computation if it fits 64 bits. */
  function Fit64(x: nat): Result<u64> {
    if x <= U64_MAX then Ok(x) else Err(ArithmeticOverflow)
  }

  function AddU64(a: u64, b: u64): Result<u64> {
    if a + b <= U64_MAX then Ok(a + b) else Err(ArithmeticOverflow)
  }

  function SubU64(a: u64, b: u64): Result<u64> {
    if b <= a then Ok(a - b) else Err(ArithmeticOverflow)
  }

  /** A plain `-` on i64, compiled with overflow checks. */
  function MinusI64(a: i64, b: i64): Result<i64> {
    if -I64_LIMIT <= a - b < I64_LIMIT then Ok(a - b) else Err(ArithmeticPanic)
  }

  function Min(a: int, b: int): int {
    if a <= b then a else b
  }
}
