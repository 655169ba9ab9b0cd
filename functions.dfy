/**
 * The function-code newtype of functions.rs: a byte with classification
 * predicates, and the enumeration of the publicly documented codes (section 5.1
 * of the Modbus Application Protocol Specification V1.1b3).
 */
module Functions {
  import opened BigEndian
  import opened Wrappers

  /** `ModbusFunction`: any function-code byte; only 0 is invalid. */
  datatype ModbusFunction = ModbusFunction(code: uint8)

  /** The documented functions, with `Invalid` standing for code 0. */
  datatype PublicModbusFunction =
    | Invalid
    | ReadCoils
    | ReadDiscreteInputs
    | ReadHoldingRegisters
    | ReadInputRegisters
    | WriteSingleCoil
    | WriteSingleRegister
    | ReadExceptionStatus
    | Diagnostics
    | GetCommEventCounter
    | GetCommEventLog
    | WriteMultipleCoils
    | WriteMultipleRegisters
    | ReportServerID
    | ReadFileRecord
    | WriteFileRecord
    | MaskWriteRegister
    | ReadWriteMultipleRegisters
    | ReadFIFOQueue
    | EncapsulatedInterfaceTransport

  /** `p as u8`: the code of each documented function. */
  function PublicCode(p: PublicModbusFunction): (c: uint8)
    ensures c == 0 <==> p == Invalid
    ensures c <= 43
  {
    match p
    case Invalid => 0
    case ReadCoils => 1
    case ReadDiscreteInputs => 2
    case ReadHoldingRegisters => 3
    case ReadInputRegisters => 4
    case WriteSingleCoil => 5
    case WriteSingleRegister => 6
    case ReadExceptionStatus => 7
    case Diagnostics => 8
    case GetCommEventCounter => 11
    case GetCommEventLog => 12
    case WriteMultipleCoils => 15
    case WriteMultipleRegisters => 16
    case ReportServerID => 17
    case ReadFileRecord => 20
    case WriteFileRecord => 21
    case MaskWriteRegister => 22
    case ReadWriteMultipleRegisters => 23
    case ReadFIFOQueue => 24
    case EncapsulatedInterfaceTransport => 43
  }

  /**
   * `PublicModbusFunction::is_public_function`: one of the enumerated codes other
   * than 0 (the generated match lists 0, but the early return excludes it).
   */
  predicate IsPublicFunction(code: uint8)
    ensures IsPublicFunction(code) ==> 1 <= code <= 43
  {
    if code == 0 then false
    else
      match code
      case 0 => true  // unreachable: the generated match keeps 0, the guard above returns first
      case 1 => true
      case 2 => true
      case 3 => true
      case 4 => true
      case 5 => true
      case 6 => true
      case 7 => true
      case 8 => true
      case 11 => true
      case 12 => true
      case 15 => true
      case 16 => true
      case 17 => true
      case 20 => true
      case 21 => true
      case 22 => true
      case 23 => true
      case 24 => true
      case 43 => true
      case _ => false
  }

  /** `PublicModbusFunction::new_unchecked`: the code-to-variant table replacing `transmute`. */
  function PublicNewUnchecked(code: uint8): (p: PublicModbusFunction)
    requires IsPublicFunction(code)
    ensures PublicCode(p) == code
  {
    match code
    case 1 => ReadCoils
    case 2 => ReadDiscreteInputs
    case 3 => ReadHoldingRegisters
    case 4 => ReadInputRegisters
    case 5 => WriteSingleCoil
    case 6 => WriteSingleRegister
    case 7 => ReadExceptionStatus
    case 8 => Diagnostics
    case 11 => GetCommEventCounter
    case 12 => GetCommEventLog
    case 15 => WriteMultipleCoils
    case 16 => WriteMultipleRegisters
    case 17 => ReportServerID
    case 20 => ReadFileRecord
    case 21 => WriteFileRecord
    case 22 => MaskWriteRegister
    case 23 => ReadWriteMultipleRegisters
    case 24 => ReadFIFOQueue
    case 43 => EncapsulatedInterfaceTransport
    case _ => Invalid
  }

  /** `PublicModbusFunction::new`: the documented function with this code, else `Invalid`. */
  function PublicNew(code: uint8): (p: PublicModbusFunction)
    ensures IsPublicFunction(code) ==> PublicCode(p) == code
    ensures !IsPublicFunction(code) ==> p == Invalid
  {
    if IsPublicFunction(code) then PublicNewUnchecked(code) else Invalid
  }

  /** The public codes are exactly the codes of the documented functions other than `Invalid`. */
  lemma IsPublicFunctionExactly(code: uint8)
    ensures IsPublicFunction(code) <==> code != 0 && exists p :: PublicCode(p) == code
  {
    if IsPublicFunction(code) {
      assert PublicCode(PublicNew(code)) == code;
    }
  }

  /** Code and documented function convert into each other without loss. */
  lemma PublicRoundTrip(p: PublicModbusFunction)
    ensures PublicNew(PublicCode(p)) == p
    ensures p != Invalid <==> IsPublicFunction(PublicCode(p))
  {
  }

  /** `ModbusFunction::new_public`. */
  function NewPublic(p: PublicModbusFunction): (f: ModbusFunction)
    ensures f.code == PublicCode(p)
    ensures IsPublic(f) <==> p != Invalid
  {
    PublicRoundTrip(p);
    ModbusFunction(PublicCode(p))
  }

  /** `is`: the byte is the code of the given documented function. */
  predicate Is(f: ModbusFunction, p: PublicModbusFunction)
    ensures Is(f, p) <==> f.code == PublicCode(p)
  {
    f.code == NewPublic(p).code
  }

  /** `is_valid`. */
  predicate IsValid(f: ModbusFunction)
    ensures IsPublic(f) || IsCustom(f) || IsException(f) ==> IsValid(f)
  {
    f.code != 0
  }

  /** `is_public`. */
  predicate IsPublic(f: ModbusFunction)
    ensures IsPublic(f) ==> !IsCustom(f) && !IsException(f)
  {
    IsPublicFunction(f.code)
  }

  /** `is_public_reserved`: every valid code that is not a custom one. */
  predicate IsPublicReserved(f: ModbusFunction)
    ensures IsPublic(f) || IsException(f) ==> IsPublicReserved(f)
    ensures IsPublicReserved(f) ==> IsValid(f)
  {
    IsValid(f) && !IsCustom(f)
  }

  /** `is_custom`: the user-defined ranges 65 to 72 and 100 to 110. */
  predicate IsCustom(f: ModbusFunction)
    ensures IsCustom(f) ==> f.code != 0 && !IsPublicFunction(f.code) && !IsException(f)
  {
    65 <= f.code <= 72 || 100 <= f.code <= 110
  }

  /** `is_exception`: the high bit is set. */
  predicate IsException(f: ModbusFunction)
    ensures IsException(f) ==> f.code != 0 && !IsPublicFunction(f.code)
  {
    f.code >= 128
  }

  /** How the predicates relate: the classes they carve out of the 256 codes. */
  lemma Classes(f: ModbusFunction)
    ensures !IsValid(f) <==> f.code == 0
    ensures IsCustom(f) ==> IsValid(f) && !IsPublicReserved(f) && !IsPublic(f)
    ensures IsPublic(f) ==> IsPublicReserved(f) && !IsException(f)
    ensures IsException(f) ==> IsPublicReserved(f)
  {
  }

  /** `is` holds for exactly one documented function: the one `PublicNew` finds. */
  lemma IsExactly(f: ModbusFunction, p: PublicModbusFunction)
    ensures Is(f, p) <==> f.code == PublicCode(p)
    ensures IsPublic(f) ==> (Is(f, p) <==> p == PublicNew(f.code))
  {
    PublicRoundTrip(p);
  }

  /**
   * `get_function`: the first byte as a function code and the bytes after it;
   * both absent on empty input.
   */
  function GetFunction(data: seq<uint8>): (r: (Option<ModbusFunction>, Option<seq<uint8>>))
    ensures r.0.None? <==> |data| == 0
    ensures r.1.None? <==> |data| == 0
    ensures r.0.Some? && r.1.Some? ==> [r.0.value.code] + r.1.value == data
  {
    (if |data| >= 1 then Some(ModbusFunction(data[0])) else None,
     if |data| >= 1 then Some(data[1..]) else None)
  }

  /** `get_function_unchecked`: the same split, for callers that guarantee a byte. */
  function GetFunctionUnchecked(data: seq<uint8>): (r: (ModbusFunction, seq<uint8>))
    requires |data| >= 1
    ensures GetFunction(data) == (Some(r.0), Some(r.1))
  {
    (ModbusFunction(data[0]), data[1..])
  }
}
