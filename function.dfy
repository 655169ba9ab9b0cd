/**
 * The three-way function-code classifier of function.rs: every byte is a public,
 * a custom (65 to 72, 100 to 110) or an other function code. This revision counts
 * 0 to 24 and 43 as public, with 0 as the distinguished `Invalid` function.
 */
module Function {
  import opened BigEndian
  import opened Wrappers

  /** The publicly defined functions, with `Invalid` for code 0. */
  datatype PublicModbusFunction =
    | Invalid
    | ReadCoils
    | ReadDiscreteInputs
    | ReadHoldingRegisters
    | ReadInputRegisters
    | WriteSingleCoil
    | WriteSingleRegister
    | ReadExceptionStatus
    | Diagnostics
    | Program484
    | Poll484
    | GetCommEventCounter
    | GetCommEventLog
    | ProgramController
    | PollController
    | WriteMultipleCoils
    | WriteMultipleregisters
    | ReportServerID
    | Program884M84
    | ResetCommLink
    | ReadFileRecord
    | WriteFileRecord
    | MaskWriteRegister
    | ReadWriteMultipleRegisters
    | ReadFIFOQueue
    | EncapsulatedInterfaceTransport

  /** `p as u8`. */
  function PublicCode(p: PublicModbusFunction): (c: uint8)
    ensures IsPublicFunction(c)
    ensures c == 0 <==> p == Invalid
  {
    match p
    case Invalid => 0
    case ReadCoils => 1
    case ReadDiscreteInputs => 2
    case ReadHoldingRegisters => 3
    case ReadInputRegisters => 4
    case WriteSingleCoil => 5
    case WriteSingleRegister => 6
    case ReadExceptionStatus => 7
    case Diagnostics => 8
    case Program484 => 9
    case Poll484 => 10
    case GetCommEventCounter => 11
    case GetCommEventLog => 12
    case ProgramController => 13
    case PollController => 14
    case WriteMultipleCoils => 15
    case WriteMultipleregisters => 16
    case ReportServerID => 17
    case Program884M84 => 18
    case ResetCommLink => 19
    case ReadFileRecord => 20
    case WriteFileRecord => 21
    case MaskWriteRegister => 22
    case ReadWriteMultipleRegisters => 23
    case ReadFIFOQueue => 24
    case EncapsulatedInterfaceTransport => 43
  }

  /** `PublicModbusFunction::is_public_function`: 0 to 24, and 43. */
  predicate IsPublicFunction(code: uint8)
    ensures code == 0 ==> IsPublicFunction(code)
    ensures IsPublicFunction(code) ==> code < 65 && !IsCustomFunction(code)
  {
    0 <= code <= 24 || code == 43
  }

  /** `PublicModbusFunction::new_unchecked`: the code-to-variant table replacing `transmute`. */
  function PublicNewUnchecked(code: uint8): (p: PublicModbusFunction)
    requires IsPublicFunction(code)
    ensures PublicCode(p) == code
  {
    match code
    case 0 => Invalid
    case 1 => ReadCoils
    case 2 => ReadDiscreteInputs
    case 3 => ReadHoldingRegisters
    case 4 => ReadInputRegisters
    case 5 => WriteSingleCoil
    case 6 => WriteSingleRegister
    case 7 => ReadExceptionStatus
    case 8 => Diagnostics
    case 9 => Program484
    case 10 => Poll484
    case 11 => GetCommEventCounter
    case 12 => GetCommEventLog
    case 13 => ProgramController
    case 14 => PollController
    case 15 => WriteMultipleCoils
    case 16 => WriteMultipleregisters
    case 17 => ReportServerID
    case 18 => Program884M84
    case 19 => ResetCommLink
    case 20 => ReadFileRecord
    case 21 => WriteFileRecord
    case 22 => MaskWriteRegister
    case 23 => ReadWriteMultipleRegisters
    case 24 => ReadFIFOQueue
    case 43 => EncapsulatedInterfaceTransport
    case _ => Invalid
  }

  /** `PublicModbusFunction::new` (also `From<u8>`): the public function with this code, else `Invalid`. */
  function PublicNew(code: uint8): (p: PublicModbusFunction)
    ensures IsPublicFunction(code) ==> PublicCode(p) == code
    ensures !IsPublicFunction(code) ==> p == Invalid
  {
    if IsPublicFunction(code) then PublicNewUnchecked(code) else Invalid
  }

  /** Every variant's code is public, and `PublicNew` finds the variant again. */
  lemma PublicRoundTrip(p: PublicModbusFunction)
    ensures IsPublicFunction(PublicCode(p))
    ensures PublicNew(PublicCode(p)) == p
  {
  }

  /** `CustomModbusFunction`: a byte in one of the user-defined ranges. */
  datatype CustomModbusFunction = CustomModbusFunction(code: uint8)

  /** `CustomModbusFunction::is_custom_function`. */
  predicate IsCustomFunction(code: uint8)
    ensures IsCustomFunction(code) ==> 65 <= code <= 110
  {
    65 <= code <= 72 || 100 <= code <= 110
  }

  /** `CustomModbusFunction::new`: present exactly for custom codes. */
  function CustomNew(code: uint8): (r: Option<CustomModbusFunction>)
    ensures r.Some? <==> IsCustomFunction(code)
    ensures r.Some? ==> r.value.code == code
  {
    if IsCustomFunction(code) then Some(CustomModbusFunction(code)) else None
  }

  /** `OtherModbusFunction`: a byte that is neither public nor custom. */
  datatype OtherModbusFunction = OtherModbusFunction(code: uint8)

  /** `OtherModbusFunction::is_other_function`. */
  predicate IsOtherFunction(code: uint8)
    ensures IsOtherFunction(code) ==> 25 <= code && code != 43
    ensures code >= 111 ==> IsOtherFunction(code)
  {
    !IsPublicFunction(code) && !IsCustomFunction(code)
  }

  /** `OtherModbusFunction::new`: present exactly for other codes. */
  function OtherNew(code: uint8): (r: Option<OtherModbusFunction>)
    ensures r.Some? <==> IsOtherFunction(code)
    ensures r.Some? ==> r.value.code == code
  {
    if IsOtherFunction(code) then Some(OtherModbusFunction(code)) else None
  }

  datatype ModbusFunction =
    | Public(public: PublicModbusFunction)
    | Custom(custom: CustomModbusFunction)
    | Other(other: OtherModbusFunction)

  /**
   * `From<u8>`: custom codes first, then public ones, everything else is other.
   * The variant chosen is the class of the byte, and the byte is kept.
   */
  function FromU8(fcode: uint8): (f: ModbusFunction)
    ensures f.Custom? <==> IsCustomFunction(fcode)
    ensures f.Public? <==> IsPublicFunction(fcode)
    ensures f.Other? <==> IsOtherFunction(fcode)
    ensures IntoU8(f) == fcode
  {
    if IsCustomFunction(fcode) then Custom(CustomModbusFunction(fcode))
    else if IsPublicFunction(fcode) then Public(PublicNewUnchecked(fcode))
    else Other(OtherModbusFunction(fcode))
  }

  /** `Into<u8>`. */
  function IntoU8(f: ModbusFunction): (c: uint8)
    ensures f.Public? ==> IsPublicFunction(c) && (c == 0 <==> f.public == Invalid)
  {
    match f
    case Custom(c) => c.code
    case Public(p) => PublicCode(p)
    case Other(o) => o.code
  }

  /** The three classes are a partition of the 256 bytes, and 0 is the public `Invalid`. */
  lemma Partition(code: uint8)
    ensures IsPublicFunction(code) || IsCustomFunction(code) || IsOtherFunction(code)
    ensures !(IsPublicFunction(code) && IsCustomFunction(code))
    ensures !(IsPublicFunction(code) && IsOtherFunction(code))
    ensures !(IsCustomFunction(code) && IsOtherFunction(code))
    ensures FromU8(0) == Public(Invalid)
  {
  }

  /** Classifying a well-formed function's byte gives the function back. */
  lemma IntoFromU8(f: ModbusFunction)
    requires f.Custom? ==> IsCustomFunction(f.custom.code)
    requires f.Other? ==> IsOtherFunction(f.other.code)
    ensures FromU8(IntoU8(f)) == f
  {
    if f.Public? {
      PublicRoundTrip(f.public);
    }
  }

  /**
   * `get_function`: the first byte classified and the bytes after it. A single
   * byte gives an empty tail; only empty input gives neither (the comment's
   * "less than 2 bytes" does not match the code).
   */
  function GetFunction(data: seq<uint8>): (r: (Option<ModbusFunction>, Option<seq<uint8>>))
    ensures r.0.None? <==> |data| == 0
    ensures r.1.None? <==> |data| == 0
    ensures r.0.Some? && r.1.Some? ==> [IntoU8(r.0.value)] + r.1.value == data
  {
    (if |data| >= 1 then Some(FromU8(data[0])) else None,
     if |data| >= 1 then Some(data[1..]) else None)
  }

  /** `get_function_unchecked`: the same split, for callers that guarantee a byte. */
  function GetFunctionUnchecked(data: seq<uint8>): (r: (ModbusFunction, seq<uint8>))
    requires |data| >= 1
    ensures GetFunction(data) == (Some(r.0), Some(r.1))
  {
    (FromU8(data[0]), data[1..])
  }
}
