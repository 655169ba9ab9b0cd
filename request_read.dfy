/**
 * The older read-request family of request/read.rs: same 4-byte body, but the
 * parser returns options, refuses quantity 0, and the encoder returns the five
 * bytes of the whole request (function code first) by value. Function codes come
 * from the classifier of function.rs.
 */
module RequestRead {
  import opened BigEndian
  import opened Wrappers
  import Function
  import UtilMod

  /** The four instances of the `read_request!` macro. */
  datatype ReadKind = ReadCoils | ReadDiscreteInputs | ReadHoldingRegisters | ReadInputRegisters

  /** `FUNCTION_CODE` of each instance: a public code from 1 to 4. */
  function FunctionCode(kind: ReadKind): (p: Function.PublicModbusFunction)
    ensures 1 <= Function.PublicCode(p) <= 4
    ensures Function.FromU8(Function.PublicCode(p)) == Function.Public(p)
  {
    match kind
    case ReadCoils => Function.ReadCoils
    case ReadDiscreteInputs => Function.ReadDiscreteInputs
    case ReadHoldingRegisters => Function.ReadHoldingRegisters
    case ReadInputRegisters => Function.ReadInputRegisters
  }

  datatype ReadRequest = ReadRequest(addr: uint16, quantity: uint16)

  /** The body bytes of a request: address then quantity, big-endian. */
  function Body(req: ReadRequest): seq<uint8>
  {
    UtilMod.Encode(UtilMod.AddrQuantity(req.addr, req.quantity))
  }

  /** `from_modbus_data_unchecked`: address and quantity from the first four bytes. */
  function FromModbusDataUnchecked(data: seq<uint8>): (r: (ReadRequest, seq<uint8>))
    requires |data| >= 4
    ensures Body(r.0) + r.1 == data
  {
    var (aq, tail) := UtilMod.FromModbusDataUnchecked(data);
    (ReadRequest(aq.addr, aq.quantity), tail)
  }

  /**
   * `from_modbus_data` as written: it runs the unchecked 4-byte read before it
   * looks at the length, so every input shorter than four bytes is read past its end.
   */
  function FromModbusDataAsWritten(data: seq<uint8>): (r: Checked<(Option<ReadRequest>, Option<seq<uint8>>)>)
    ensures r.Undefined? <==> |data| < 4
  {
    if |data| < 4 then Undefined
    else
      var (me, _) := FromModbusDataUnchecked(data);
      if me.quantity > 0 then Defined((Some(me), Some(data[4..])))
      else Defined((None, Some(data)))
  }

  /** The input that shows the read before the length check: any short one, such as one byte. */
  lemma FromModbusDataAsWrittenReadsPastEnd()
    ensures FromModbusDataAsWritten([1]).Undefined?
  {
  }

  /**
   * `from_modbus_data` with the length checked first. A request needs four bytes
   * and a non-zero quantity; otherwise nothing is parsed and the whole input is
   * the tail. The tail is always present.
   */
  function FromModbusData(data: seq<uint8>): (r: (Option<ReadRequest>, Option<seq<uint8>>))
    ensures r.1.Some?
    ensures r.0.None? <==> |data| < 4 || Word(data[2], data[3]) == 0
    ensures r.0.None? ==> r.1.value == data
    ensures r.0.Some? ==> r.0.value.quantity > 0 && Body(r.0.value) + r.1.value == data
  {
    if |data| >= 4 then
      var (me, _) := FromModbusDataUnchecked(data);
      if me.quantity > 0 then (Some(me), Some(data[4..]))
      else (None, Some(data))
    else (None, Some(data))
  }

  /** Wherever the as-written parser is defined, the corrected one returns the same. */
  lemma FromModbusDataRefinesAsWritten(data: seq<uint8>)
    requires FromModbusDataAsWritten(data).Defined?
    ensures FromModbusData(data) == FromModbusDataAsWritten(data).value
  {
  }

  /** `new_as_modbus_data`: `[function code, addr hi, addr lo, quantity hi, quantity lo]`. */
  function NewAsModbusData(addr: uint16, quantity: uint16, kind: ReadKind): (r: seq<uint8>)
    ensures |r| == 5 && r[0] == Function.PublicCode(FunctionCode(kind))
    ensures Word(r[1], r[2]) == addr && Word(r[3], r[4]) == quantity
  {
    var addrBytes := BeBytes(addr);
    var quantityBytes := BeBytes(quantity);
    [Function.PublicCode(FunctionCode(kind)), addrBytes[0], addrBytes[1], quantityBytes[0], quantityBytes[1]]
  }

  /**
   * `as_modbus_data`: the encoding of the request's own fields; a request with a
   * non-zero quantity parses back from the bytes after the function code.
   */
  function AsModbusData(req: ReadRequest, kind: ReadKind): (r: seq<uint8>)
    ensures |r| == 5 && r[0] == Function.PublicCode(FunctionCode(kind)) && r[1..] == Body(req)
    ensures req.quantity > 0 ==> FromModbusData(r[1..]) == (Some(req), Some([]))
  {
    var r := NewAsModbusData(req.addr, req.quantity, kind);
    UtilMod.DecodeEncode(UtilMod.AddrQuantity(req.addr, req.quantity), []);
    assert r[1..] == Body(req);
    assert Body(req) + [] == Body(req);
    r
  }

  /**
   * Parsing five bytes that start with the instance's code and re-encoding the
   * request reproduces the five bytes.
   */
  lemma ParseThenEncode(data: seq<uint8>, kind: ReadKind)
    requires |data| == 5 && data[0] == Function.PublicCode(FunctionCode(kind))
    requires FromModbusData(data[1..]).0.Some?
    ensures AsModbusData(FromModbusData(data[1..]).0.value, kind) == data
  {
    var (me, tail) := FromModbusData(data[1..]);
    assert Body(me.value) + tail.value == data[1..];
    assert |Body(me.value)| == 4;
    assert tail.value == [];
  }

  /**
   * A whole encoded request: classifying the first byte finds the instance's
   * public function, and the rest parses back to the request.
   */
  lemma FrameRoundTrip(req: ReadRequest, kind: ReadKind)
    requires req.quantity > 0
    ensures var (f, rest) := Function.GetFunction(AsModbusData(req, kind));
      && f == Some(Function.Public(FunctionCode(kind)))
      && rest.Some? && FromModbusData(rest.value) == (Some(req), Some([]))
  {
  }
}
