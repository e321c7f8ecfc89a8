/**
 What both contracts take from the Soroban host: fixed-width integers, addresses,
 optional storage entries and the outcome of a transaction.
 */
module Host {

  const U32_MAX: int := 0xFFFF_FFFF
  const U64_MAX: int := 0xFFFF_FFFF_FFFF_FFFF
  const U128_MAX: int := 0xFFFF_FFFF_FFFF_FFFF_FFFF_FFFF_FFFF_FFFF
  const I128_MAX: int := 0x7FFF_FFFF_FFFF_FFFF_FFFF_FFFF_FFFF_FFFF
  const I128_MIN: int := -0x8000_0000_0000_0000_0000_0000_0000_0000

  type byte = x: int | 0 <= x < 256
  type u32 = x: int | 0 <= x <= U32_MAX
  type u64 = x: int | 0 <= x <= U64_MAX
  type u128 = x: int | 0 <= x <= U128_MAX
  type i128 = x: int | I128_MIN <= x <= I128_MAX

  predicate FitsI128(x: int) {
    I128_MIN <= x <= I128_MAX
  }

  /** The i128 nearest to `x`: the result of every saturating i128 operation. */
  function ClampI128(x: int): i128 {
    if x < I128_MIN then I128_MIN else if x > I128_MAX then I128_MAX else x
  }

  function SaturatingAdd(x: i128, y: i128): i128 {
    ClampI128(x + y)
  }

  function SaturatingSub(x: i128, y: i128): i128 {
    ClampI128(x - y)
  }

  function SaturatingAddU32(x: u32, y: u32): u32 {
    if x + y > U32_MAX then U32_MAX else x + y
  }

  function Min(x: int, y: int): int {
    if x < y then x else y
  }

  function Max(x: int, y: int): int {
    if x < y then y else x
  }

  /**
   Accounts and contracts. `Self` is the contract being modelled; `Deployed(salt)`
   is the contract it deploys from `salt`, so distinct salts give distinct addresses.
   */
  datatype Address = Zero | Self | External(key: nat) | Deployed(salt: seq<byte>)

  /** The addresses whose authorisation a call carries. A contract never signs a call to itself. */
  type Signers = s: set<Address> | Self !in s

  datatype Option<+T> = None | Some(value: T)

  /**
   How a transaction ends: with a value, with the contract's typed error, or with a
   host panic (failed authorisation, failed assertion, integer overflow, trapped callee).
   */
  datatype Outcome<+T, +E> = Ok(value: T) | Err(error: E) | Trap {
    predicate IsFailure() {
      !Ok?
    }

    function PropagateFailure<U>(): Outcome<U, E>
      requires IsFailure()
    {
      match this
      case Err(e) => Err(e)
      case Trap => Trap
    }

    function Extract(): T
      requires !IsFailure()
    {
      value
    }
  }

  /** What the caller sees of a transaction that would return `value.0` and leave state `value.1`. */
  function Reply<T, S, E>(o: Outcome<(T, S), E>): Outcome<T, E> {
    match o
    case Ok(v) => Ok(v.0)
    case Err(e) => Err(e)
    case Trap => Trap
  }

  /** The state after a transaction: a failure of either kind restores `before`. */
  function After<T, S, E>(o: Outcome<(T, S), E>, before: S): S {
    if o.Ok? then o.value.1 else before
  }
}
