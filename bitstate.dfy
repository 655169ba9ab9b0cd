/**
 * The coil state of bitstate.rs and its 16-bit wire value: 0x0000 is off and
 * 0xFF00 is on; every other word is refused (section 6.5 of the Modbus
 * Application Protocol Specification V1.1b3).
 */
module BitStates {
  import opened BigEndian
  import opened Wrappers
  import opened Errors

  datatype BitState = Off | On

  /** The wire value of the on state. */
  const ON_WORD: uint16 := 0xFF00

  /** `is_on`: the state converted to `bool`. */
  function IsOn(s: BitState): (b: bool)
    ensures b <==> IntoU16(s) == ON_WORD
  {
    IntoBool(s)
  }

  /** `Default`: a coil is off unless set. */
  function Default(): (s: BitState)
    ensures !IsOn(s) && IntoU16(s) == 0
  {
    Off
  }

  /**
   * `TryFrom<u16>`: accepts exactly the two wire values, each giving the state
   * that encodes to it; anything else fails with `Invalid` (the source names
   * `InvalidValue`, a variant its error type does not define).
   */
  function TryFromU16(value: uint16): (r: Result<BitState, SerializationError>)
    ensures r.Success? <==> value == 0 || value == ON_WORD
    ensures r.Success? ==> IntoU16(r.value) == value
    ensures r.Failure? ==> r.error == Invalid
  {
    match value
    case 0 => Success(Off)
    case 0xFF00 => Success(On)
    case _ => Failure(Invalid)
  }

  /** `Into<u16>`: the wire value of a state. */
  function IntoU16(s: BitState): (v: uint16)
    ensures v == 0 || v == ON_WORD
  {
    match s
    case Off => 0
    case On => 0xFF00
  }

  /** `From<bool>`. */
  function FromBool(b: bool): (s: BitState)
    ensures IntoBool(s) == b
    ensures IntoU16(s) == if b then ON_WORD else 0
  {
    if b then On else Off
  }

  /** `Into<bool>`. */
  function IntoBool(s: BitState): (b: bool)
    ensures b <==> IntoU16(s) != 0
  {
    match s
    case Off => false
    case On => true
  }

  /** `Not`: the opposite state. */
  function Not(s: BitState): (r: BitState)
    ensures IsOn(r) == !IsOn(s)
  {
    match s
    case On => Off
    case Off => On
  }

  /** Decoding the wire value of a state gives the state back. */
  lemma DecodeEncode(s: BitState)
    ensures TryFromU16(IntoU16(s)) == Success(s)
  {
  }

  /** The wire encoding is injective, and every accepted word is the encoding of its state. */
  lemma EncodeDecode(v: uint16)
    requires TryFromU16(v).Success?
    ensures IntoU16(TryFromU16(v).value) == v
  {
  }

  /** `bool` and `BitState` convert into each other without loss, in both directions. */
  lemma BoolRoundTrips(b: bool, s: BitState)
    ensures IntoBool(FromBool(b)) == b
    ensures FromBool(IntoBool(s)) == s
    ensures IsOn(FromBool(b)) == b
  {
  }

  /** `Not` is an involution and always changes the state. */
  lemma NotInvolution(s: BitState)
    ensures Not(Not(s)) == s && Not(s) != s
  {
  }
}
