/**
 * The closed set of failure reasons reported by every fallible operation
 * (`ModbusSerializationError` in the source). Sizes are counts of bytes.
 */
module Errors {

  datatype SerializationError =
    /** The input held fewer bytes than the layout requires. */
    | UnexpectedEOF(expected: nat, got: nat)
    /** The output buffer is too small to receive the encoded request. */
    | InsufficientBuffer(expected: nat, got: nat)
    /** A field holds a value outside its legal set (also used for the coil state). */
    | Invalid
    /** A count exceeds the protocol's maximum. */
    | TooLarge
    /** Two fields that both describe a length disagree. */
    | Ambivalent
    /** Address plus count would pass the 16-bit address space. */
    | Overflow
}
