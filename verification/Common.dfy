/** Vocabulary shared by every part of the model: machine-integer bounds, the program's
    constants and errors, and the failure-compatible result type that stands for Anchor's `Result`. */
module Common {

  const U8_MAX: nat := 0xFF
  const U32_MAX: nat := 0xFFFF_FFFF
  const U64_MAX: nat := 0xFFFF_FFFF_FFFF_FFFF
  const U128_MAX: nat := 0xFFFF_FFFF_FFFF_FFFF_FFFF_FFFF_FFFF_FFFF
  const I64_MAX: nat := 0x7FFF_FFFF_FFFF_FFFF
  const I128_MAX: nat := 0x7FFF_FFFF_FFFF_FFFF_FFFF_FFFF_FFFF_FFFF

  type u64 = x: int | 0 <= x <= U64_MAX
  type i64 = x: int | -0x8000_0000_0000_0000 <= x <= I64_MAX
  type i32 = x: int | -0x8000_0000 <= x <= 0x7FFF_FFFF

  /** Rust's `as u64`, `as u32` and `as i64` on unsigned values keep the low bits. */
  function AsU64(x: nat): nat {
    x % (U64_MAX + 1)
  }

  function AsU32(x: nat): nat {
    x % (U32_MAX + 1)
  }

  function AsI64(x: u64): int {
    if x <= I64_MAX then x else x - U64_MAX - 1
  }

  // Token economics and curve (constants.rs)
  const TOTAL_SUPPLY_PER_SIDE: nat := 1_000_000_000
  const CURVE_SCALE: nat := 1_000_000_000

  // Fees
  const MAX_TRADE_FEE_BPS: nat := 500
  const BPS_DENOMINATOR: nat := 10_000

  // Windows
  const MIN_TWAP_INTERVAL: nat := 10
  const MAX_TWAP_INTERVAL: nat := 300
  const MIN_MARKET_DURATION: nat := 10
  const DEFAULT_EMERGENCY_WINDOW: nat := 86_400

  const MIN_GRADUATION_RESERVE: nat := 100_000_000
  const DEFAULT_MIN_DEPOSIT: nat := 10_000
  const PRICE_SCALE: nat := 1_000_000_000
  const MAX_CONFIDENCE_PCT: nat := 10

  datatype Option<+T> = None | Some(value: T)

  datatype DuelError =
    | MarketExpired | MarketNotExpired | MarketAlreadyResolved | MarketNotResolved
    | NotInTwapWindow | TwapSampleTooEarly | NoTwapSamples
    | InsufficientSolAmount | InsufficientTokenBalance | InsufficientReserve
    | SlippageExceeded | InvalidSide | InvalidMarketConfig | MathOverflow
    | ProtocolPaused | InvalidFeeConfig | ReentrancyLocked
    | EmergencyResolveTooEarly | WinnerMismatch | EmergencyOnlyOperation
    | InsufficientReserveForGraduation
    | InvalidOracle | OracleConfidenceTooWide | DuelNotResolved | AlreadyWithdrawn
    | DepositTooSmall | DepositPeriodEnded | OneSideEmpty
      // Raised by the runtime rather than by the program's own checks
    | AccountMissing | AccountInUse | InsufficientFunds

  datatype Result<+T> = Ok(value: T) | Err(error: DuelError) {
    predicate IsFailure() {
      Err?
    }

    function PropagateFailure<U>(): Result<U>
      requires Err?
    {
      Err(error)
    }

    function Extract(): T
      requires Ok?
    {
      value
    }
  }

  /** `require!(condition, error)`: an instruction goes on with `:- Require(...)` only if the condition holds. */
  function Require(condition: bool, error: DuelError): Result<()> {
    if condition then Ok(()) else Err(error)
  }

  // `checked_add`, `checked_sub` and `checked_mul` on an unsigned integer no greater than `max`.

  function CheckedAdd(x: nat, y: nat, max: nat): Result<nat> {
    if x + y <= max then Ok(x + y) else Err(MathOverflow)
  }

  function CheckedSub(x: nat, y: nat): Result<nat> {
    if y <= x then Ok(x - y) else Err(MathOverflow)
  }

  function CheckedMul(x: nat, y: nat, max: nat): Result<nat> {
    if x * y <= max then Ok(x * y) else Err(MathOverflow)
  }

  function CheckedDiv(x: nat, y: nat): Result<nat> {
    if y == 0 then Err(MathOverflow) else Ok(x / y)
  }

  function CheckedI64(x: int): Result<int> {
    if -(I64_MAX as int) - 1 <= x <= I64_MAX then Ok(x) else Err(MathOverflow)
  }

  /** The two sides of a duel; the program writes them as the bytes 0 and 1. */
  datatype Side = A | B {
    function Index(): nat {
      if A? then 0 else 1
    }

    function Other(): Side {
      if A? then B else A
    }
  }

  function SideOf(index: nat): Result<Side> {
    if index == 0 then Ok(A) else if index == 1 then Ok(B) else Err(InvalidSide)
  }

  datatype Status = Active | TwapObservation | Resolved {
    function Rank(): nat {
      match this
      case Active => 0
      case TwapObservation => 1
      case Resolved => 2
    }
  }

  function Min(x: int, y: int): int {
    if x <= y then x else y
  }

  function Max(x: int, y: int): int {
    if x >= y then x else y
  }
}
