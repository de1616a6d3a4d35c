/**
 * Machine integers, byte strings and the Option/Result wrappers shared by
 * every revision of the storage-reader precompiles.
 *
 * Integers are unbounded in Dafny; the widths the Rust code relies on are
 * written out here as bounds, and its saturating and checked arithmetic as
 * explicit functions.
 */
module Primitives {

  const U32_MAX: nat := 0xFFFF_FFFF
  const U64_MAX: nat := 0xFFFF_FFFF_FFFF_FFFF
  /** The runtime executes as wasm32, so `usize` is 32 bits wide. */
  const USIZE_MAX: nat := 0xFFFF_FFFF

  type byte = b: int | 0 <= b < 256
  type u32 = x: nat | x <= U32_MAX
  type u64 = x: nat | x <= U64_MAX
  type NonZeroU32 = x: u32 | x > 0 witness 1

  /** Raw bytes (`Vec<u8>`, `&[u8]`, `Bytes`). */
  type Bytes = seq<byte>

  /** UTF-8 bytes of a pallet or storage entry name (`&str::as_bytes`). */
  type Name = seq<byte>

  datatype Option<+T> = None | Some(value: T) {
    function GetOr(default: T): T {
      match this
      case Some(v) => v
      case None => default
    }
  }

  datatype Result<+T, +E> = Ok(value: T) | Err(error: E)

  /** `core::ops::Range<usize>`: the bytes `lower..upper` of a buffer. */
  datatype Range = Range(lower: nat, upper: nat)

  /**
   * The offset/length selector a caller sends: `common/params.rs` `Params`
   * in the current revision and `InputParams` in the older ones. The
   * revisions encode it differently on the wire (compact or fixed-width
   * integers); that encoding is library-generated and not modelled.
   */
  datatype InputParams =
    | NoParams
    | Offset(offset: u32)
    | Len(len: u32)
    | OffsetAndLen(offset: u32, len: u32)

  /** `evm::ExitError`, reduced to the two forms the readers produce. */
  datatype ExitError = OutOfGas | Other(msg: string)

  function Min(a: nat, b: nat): nat {
    if a <= b then a else b
  }

  /** `u64::saturating_add`. */
  function SaturatingAdd(a: u64, b: u64): (r: u64)
    ensures r == Min(a + b, U64_MAX)
  {
    if a + b <= U64_MAX then a + b else U64_MAX
  }

  /** `u64::saturating_mul`, the second operand being a length cast to `u64`. */
  function SaturatingMul(a: u64, b: nat): (r: u64)
    ensures r == Min(a * b, U64_MAX)
  {
    if a * b <= U64_MAX then a * b else U64_MAX
  }

  /** `usize::checked_add`. */
  function CheckedAdd(a: nat, b: nat): (r: Option<nat>)
    ensures r.Some? <==> a + b <= USIZE_MAX
    ensures r.Some? ==> r.value == a + b
  {
    if a + b <= USIZE_MAX then Some(a + b) else None
  }

  /** `u32::try_into::<NonZeroU32>().ok()`: zero is not a valid offset. */
  function NonZero(x: u32): (r: Option<NonZeroU32>)
    ensures r.None? <==> x == 0
    ensures r.Some? ==> r.value == x
  {
    if x == 0 then None else Some(x)
  }

  /** `usize as u32`: keeps the low 32 bits. */
  function AsU32(n: nat): (r: u32)
    ensures n <= U32_MAX ==> r == n
  {
    n % (U32_MAX + 1)
  }

  /** `usize as u8`: keeps the low 8 bits. */
  function AsU8(n: nat): (r: byte)
    ensures n < 256 ==> r == n
  {
    n % 256
  }
}
