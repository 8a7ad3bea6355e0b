/** Values shared by every module: bytes, optional values and results with an error. */
module Types {
  /** An unsigned octet, as CBOR and CoAP see it. */
  newtype byte = x: int | 0 <= x < 256

  /** Java's signed `byte` view of an octet (two's complement). */
  function Signed(b: byte): (r: int)
    ensures -128 <= r < 128
    ensures r % 256 == b as int % 256
    ensures (b < 128) == (r >= 0)
  {
    if b < 128 then b as int else b as int - 256
  }

  /** A Java reference that may be null, or a Python value that may be None. */
  datatype Option<T> = None | Some(value: T)

  /**
   * Which form of a piece of code with a known defect a member follows: the
   * code as it stands, or the corrected code.
   */
  datatype Reading = AsWritten | Intended

  /** A computation that either returns a value or raises an exception of kind `E`. */
  datatype Result<T, E> = Ok(value: T) | Err(error: E)
  {
    predicate IsOk() { Ok? }
  }

  /** The Java exceptions the modelled code can raise (or let escape from a library call). */
  datatype Exception =
    | IndexOutOfBounds        // array or list index outside its bounds
    | NegativeArraySize       // `new T[n]` with n < 0
    | IllegalArgument         // e.g. `Arrays.copyOfRange` with from > to
    | IllegalState(msg: string)
    | NullPointer
    | Arithmetic              // e.g. `AsInt32` of an integer outside the 32-bit range
    | CborError               // a CBOR decoding failure escaping to the caller
    | NumberFormat            // `Integer.parseInt` of a malformed string
    | Unsupported(msg: string)
    | Runtime(msg: string)
    | SystemExit              // a Python `exit()`
    | KeyError                // a Python dictionary lookup of a missing key
    | ValueError              // a Python unpacking of the wrong number of values, or `split("")`
    | AttributeError          // a Python attribute access on `None`
    | ProbeFailure(msg: string) // the timing probe's `ProbeException`
    | NoSuchElement           // `Iterator.next()` past the last element

  const INT32_MIN: int := -0x8000_0000
  const INT32_MAX: int := 0x7FFF_FFFF

  predicate IsInt32(v: int) { INT32_MIN <= v <= INT32_MAX }

  /** Java's `Math.abs` on an `int`: the absolute value wraps around for the least value. */
  function JavaAbs(v: int): (r: int)
    requires IsInt32(v)
    ensures v != INT32_MIN ==> r >= 0 && (r == v || r == -v)
    ensures v == INT32_MIN ==> r == v
  {
    if v >= 0 then v else if v == INT32_MIN then v else -v
  }
}
