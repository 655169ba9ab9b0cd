/**
 * The read-request family of requests/read.rs (read coils, discrete inputs,
 * holding registers, input registers; sections 6.1 to 6.4 of the Modbus
 * Application Protocol Specification V1.1b3). The `read_req!` macro stamps out
 * four identical types that differ only in their function code; they are modelled
 * once, parameterised by `ReadKind`. This revision accepts every quantity,
 * including 0.
 */
module RequestsRead {
  import opened BigEndian
  import opened Wrappers
  import opened Errors
  import Functions
  import UtilMod

  /** The four instances of the macro. */
  datatype ReadKind = ReadCoils | ReadDiscreteInputs | ReadHoldingRegisters | ReadInputRegisters

  /** `MODBUS_FUNCTION_CODE` of each instance: a public code from 1 to 4. */
  function FunctionCode(kind: ReadKind): (p: Functions.PublicModbusFunction)
    ensures 1 <= Functions.PublicCode(p) <= 4
    ensures Functions.IsPublicFunction(Functions.PublicCode(p))
  {
    match kind
    case ReadCoils => Functions.ReadCoils
    case ReadDiscreteInputs => Functions.ReadDiscreteInputs
    case ReadHoldingRegisters => Functions.ReadHoldingRegisters
    case ReadInputRegisters => Functions.ReadInputRegisters
  }

  /** Each instance has a code of its own. */
  lemma FunctionCodeInjective(a: ReadKind, b: ReadKind)
    requires Functions.PublicCode(FunctionCode(a)) == Functions.PublicCode(FunctionCode(b))
    ensures a == b
  {
  }

  datatype ReadRequest = ReadRequest(addr: uint16, quantity: uint16)

  /** The number of body bytes: address and quantity. */
  const SIZE: nat := 4

  /** The number of bytes `write_to_slice` needs: the function code and the body. */
  const OUTPUT_SIZE: nat := 5

  /**
   * `from_data`: fails with `UnexpectedEOF { expected: 4, got }` on fewer than
   * four bytes; otherwise the request whose body is the first four bytes, and
   * the rest as the tail. The quantity is not range-checked.
   */
  function FromData(data: seq<uint8>): (r: Result<(ReadRequest, seq<uint8>), SerializationError>)
    ensures r.Failure? <==> |data| < SIZE
    ensures r.Failure? ==> r.error == UnexpectedEOF(SIZE, |data|)
    ensures r.Success? ==> IntoData(r.value.0) + r.value.1 == data
  {
    if |data| < SIZE then Failure(UnexpectedEOF(SIZE, |data|))
    else Success(FromDataUnchecked(data))
  }

  /**
   * `from_data_unchecked`. The `read_addr_quantity_unchecked` it calls is not part
   * of this model; the reader of util/mod.rs for the same big-endian layout
   * (`AddrQuantity::from_modbus_data_unchecked`) stands in for it.
   */
  function FromDataUnchecked(data: seq<uint8>): (r: (ReadRequest, seq<uint8>))
    requires |data| >= SIZE
    ensures IntoData(r.0) + r.1 == data
  {
    var (aq, tail) := UtilMod.FromModbusDataUnchecked(data);
    (ReadRequest(aq.addr, aq.quantity), tail)
  }

  /** The checked and unchecked parsers agree on every input of at least four bytes. */
  lemma CheckedAgreesWithUnchecked(data: seq<uint8>)
    requires |data| >= SIZE
    ensures FromData(data) == Success(FromDataUnchecked(data))
  {
  }

  /** `into_data`: `[addr hi, addr lo, quantity hi, quantity lo]`. */
  function IntoData(req: ReadRequest): (r: seq<uint8>)
    ensures |r| == SIZE
    ensures Word(r[0], r[1]) == req.addr && Word(r[2], r[3]) == req.quantity
  {
    UtilMod.Encode(UtilMod.AddrQuantity(req.addr, req.quantity))
  }

  /** Parsing the body of a request gives the request back, whatever follows it. */
  lemma DecodeEncode(req: ReadRequest, tail: seq<uint8>)
    ensures FromData(IntoData(req) + tail) == Success((req, tail))
  {
    UtilMod.DecodeEncode(UtilMod.AddrQuantity(req.addr, req.quantity), tail);
  }

  /** Quantity 0 and quantity 0xFFFF are both accepted by this revision. */
  lemma AnyQuantityAccepted(addr: uint16, quantity: uint16)
    ensures FromData(IntoData(ReadRequest(addr, quantity))) == Success((ReadRequest(addr, quantity), []))
    ensures FromData([0, 0, 0, 0]) == Success((ReadRequest(0, 0), []))
    ensures FromData([0xFF, 0xFF, 0xFF, 0xFF]) == Success((ReadRequest(0xFFFF, 0xFFFF), []))
  {
    DecodeEncode(ReadRequest(addr, quantity), []);
    DecodeEncode(ReadRequest(0, 0), []);
    assert IntoData(ReadRequest(0, 0)) + [] == [0, 0, 0, 0];
    DecodeEncode(ReadRequest(0xFFFF, 0xFFFF), []);
    assert IntoData(ReadRequest(0xFFFF, 0xFFFF)) + [] == [0xFF, 0xFF, 0xFF, 0xFF];
  }

  /** The whole request as `write_to_slice` lays it out: the function code, then the body. */
  function Encoded(req: ReadRequest, kind: ReadKind): (r: seq<uint8>)
    ensures |r| == OUTPUT_SIZE && r[1..] == IntoData(req)
    ensures Functions.IsPublic(Functions.ModbusFunction(r[0]))
    ensures Functions.Is(Functions.ModbusFunction(r[0]), FunctionCode(kind))
  {
    [Functions.PublicCode(FunctionCode(kind))] + IntoData(req)
  }

  /**
   * A whole encoded request followed by anything: classifying its first byte finds
   * the instance's function, and parsing the rest gives the request and what
   * follows it.
   */
  lemma FrameRoundTrip(req: ReadRequest, kind: ReadKind, tail: seq<uint8>)
    ensures var (f, rest) := Functions.GetFunction(Encoded(req, kind) + tail);
      && f.Some? && rest.Some?
      && Functions.Is(f.value, FunctionCode(kind))
      && FromData(rest.value) == Success((req, tail))
  {
    var frame := Encoded(req, kind) + tail;
    assert frame[1..] == IntoData(req) + tail;
    DecodeEncode(req, tail);
  }

  /**
   * `write_to_slice_unchecked`: the function code into `out[0]`, the body into
   * `out[1..5]`; nothing else changes. The writer of util/mod.rs
   * (`AddrQuantity::write_to_modbus_data_unchecked`) stands in for the
   * `write_addr_quantity_unchecked` it calls, which is not part of this model.
   */
  method WriteToSliceUnchecked(req: ReadRequest, kind: ReadKind, out: array<uint8>)
    requires out.Length >= OUTPUT_SIZE
    modifies out
    ensures out[..] == Encoded(req, kind) + old(out[OUTPUT_SIZE..])
  {
    out[0] := Functions.PublicCode(FunctionCode(kind));
    UtilMod.WriteToModbusDataUnchecked(UtilMod.AddrQuantity(req.addr, req.quantity), out, 1);
  }

  /**
   * `write_to_slice`: fails with `InsufficientBuffer { expected: 5, got }`, leaving
   * `out` untouched, when `out` is shorter than five bytes; otherwise writes the
   * encoded request into `out[0..5]` and leaves the rest as it was.
   */
  method WriteToSlice(req: ReadRequest, kind: ReadKind, out: array<uint8>)
    returns (r: Outcome<SerializationError>)
    modifies out
    ensures out.Length < OUTPUT_SIZE ==>
      r == Fail(InsufficientBuffer(OUTPUT_SIZE, out.Length)) && out[..] == old(out[..])
    ensures out.Length >= OUTPUT_SIZE ==>
      r == Pass && out[..] == Encoded(req, kind) + old(out[OUTPUT_SIZE..])
  {
    if out.Length < OUTPUT_SIZE {
      return Fail(InsufficientBuffer(OUTPUT_SIZE, out.Length));
    }
    WriteToSliceUnchecked(req, kind, out);
    return Pass;
  }
}
