/**
 * Write Single Coil of requests/write/single.rs (section 6.5 of the Modbus
 * Application Protocol Specification V1.1b3): `[addr hi, addr lo, state hi,
 * state lo]` after the function code, with the state restricted to the two coil
 * wire values.
 */
module RequestsWriteSingle {
  import opened BigEndian
  import opened Wrappers
  import opened Errors
  import opened BitStates
  import Functions
  import Util

  datatype WriteSingleCoil = WriteSingleCoil(addr: uint16, state: BitState)

  /** `MODBUS_FUNCTION_CODE`. */
  const MODBUS_FUNCTION_CODE: Functions.PublicModbusFunction := Functions.WriteSingleCoil

  /** The number of body bytes: address and state. */
  const SIZE: nat := 4

  /** The number of encoded bytes: the function code and the body. */
  const OUTPUT_SIZE: nat := 5

  /**
   * `from_data`: `UnexpectedEOF { expected: 4, got }` on fewer than four bytes;
   * `Invalid` when the state word is neither 0x0000 nor 0xFF00; otherwise the
   * request whose encoding (after the function code) is the first four bytes,
   * and the rest as the tail.
   */
  function FromData(data: seq<uint8>): (r: Result<(WriteSingleCoil, seq<uint8>), SerializationError>)
    ensures |data| < SIZE ==> r == Failure(UnexpectedEOF(SIZE, |data|))
    ensures |data| >= SIZE ==> (r.Success? <==> Word(data[2], data[3]) in {0, ON_WORD})
    ensures |data| >= SIZE && r.Failure? ==> r.error == Invalid
    ensures r.Success? ==> IntoData(r.value.0)[1..] + r.value.1 == data
  {
    if |data| < SIZE then Failure(UnexpectedEOF(SIZE, |data|))
    else FromDataUnchecked(data)
  }

  /**
   * `from_data_unchecked`: two words read with `read_u16_unchecked`, the second
   * decoded as a coil state (its error is passed on).
   */
  function FromDataUnchecked(data: seq<uint8>): (r: Result<(WriteSingleCoil, seq<uint8>), SerializationError>)
    requires |data| >= SIZE
    ensures r.Success? <==> TryFromU16(Word(data[2], data[3])).Success?
    ensures r.Failure? ==> r.error == TryFromU16(Word(data[2], data[3])).error
    ensures r.Success? ==> IntoData(r.value.0)[1..] + r.value.1 == data
  {
    var (addr, rest) := Util.ReadU16Unchecked(data);
    var (stateWord, tail) := Util.ReadU16Unchecked(rest);
    match TryFromU16(stateWord)
    case Failure(e) => Failure(e)
    case Success(state) =>
      var req := WriteSingleCoil(addr, state);
      assert IntoData(req)[1..] == BeBytes(addr) + BeBytes(stateWord);
      Success((req, tail))
  }

  /** `into_data`: `[5, addr hi, addr lo, 0xFF or 0x00, 0x00]`. */
  function IntoData(req: WriteSingleCoil): (r: seq<uint8>)
    ensures |r| == OUTPUT_SIZE && r[0] == Functions.PublicCode(MODBUS_FUNCTION_CODE)
    ensures Word(r[1], r[2]) == req.addr && Word(r[3], r[4]) == IntoU16(req.state)
  {
    var addrBytes := BeBytes(req.addr);
    var stateBytes := BeBytes(IntoU16(req.state));
    [Functions.PublicCode(MODBUS_FUNCTION_CODE), addrBytes[0], addrBytes[1], stateBytes[0], stateBytes[1]]
  }

  /** The state bytes of the encoding: 0xFF then 0x00 for on, two zero bytes for off. */
  lemma StateBytes(req: WriteSingleCoil)
    ensures IntoData(req)[3..] == (if IsOn(req.state) then [0xFF, 0x00] else [0x00, 0x00])
  {
  }

  /** Parsing the encoding of a request (after the function code) gives it back, with the tail untouched. */
  lemma DecodeEncode(req: WriteSingleCoil, tail: seq<uint8>)
    ensures FromData(IntoData(req)[1..] + tail) == Success((req, tail))
  {
    var data := IntoData(req)[1..] + tail;
    assert data[..2] == BeBytes(req.addr);
    assert data[2..4] == BeBytes(IntoU16(req.state));
    BeBytesOfWord(data[0], data[1]);
    BeBytesOfWord(data[2], data[3]);
    BeBytesInjective(Word(data[0], data[1]), req.addr);
    BeBytesInjective(Word(data[2], data[3]), IntoU16(req.state));
    BitStates.DecodeEncode(req.state);
    assert data[4..] == tail;
  }

  /** State words other than the two coil values are refused, e.g. 0xF0FF, 0xFFFF and 1. */
  lemma InvalidStatesRefused(addr: uint16)
    ensures FromData(BeBytes(addr) + [0xF0, 0xFF]) == Failure(Invalid)
    ensures FromData(BeBytes(addr) + [0xFF, 0xFF]) == Failure(Invalid)
    ensures FromData(BeBytes(addr) + [0x00, 0x01]) == Failure(Invalid)
  {
  }

  /** `write_to_slice_unchecked`: `copy_from_slice` of the encoding into `out[0..5]`. */
  method WriteToSliceUnchecked(req: WriteSingleCoil, out: array<uint8>)
    requires out.Length >= OUTPUT_SIZE
    modifies out
    ensures out[..] == IntoData(req) + old(out[OUTPUT_SIZE..])
  {
    var data := IntoData(req);
    CopyFromSlice(out, 0, data);
    assert old(out[..0]) + data == data;
  }

  /**
   * `write_to_slice`: `InsufficientBuffer { expected: 5, got }` with `out`
   * untouched when it is shorter than five bytes; otherwise the encoding goes to
   * `out[0..5]` and the rest of `out` is unchanged.
   */
  method WriteToSlice(req: WriteSingleCoil, out: array<uint8>) returns (r: Outcome<SerializationError>)
    modifies out
    ensures out.Length < OUTPUT_SIZE ==>
      r == Fail(InsufficientBuffer(OUTPUT_SIZE, out.Length)) && out[..] == old(out[..])
    ensures out.Length >= OUTPUT_SIZE ==>
      r == Pass && out[..] == IntoData(req) + old(out[OUTPUT_SIZE..])
  {
    if out.Length < OUTPUT_SIZE {
      return Fail(InsufficientBuffer(OUTPUT_SIZE, out.Length));
    }
    WriteToSliceUnchecked(req, out);
    return Pass;
  }
}
