/**
 * The older write-single requests of request/write/single.rs: Write Single Coil
 * with a `bool` state and Write Single Register (section 6.6 of the Modbus
 * Application Protocol Specification V1.1b3). Both parse from the four bytes after
 * the function code and encode to five bytes by value.
 */
module RequestWriteSingle {
  import opened BigEndian
  import opened Wrappers
  import Function

  datatype WriteSingleCoilRequest = WriteSingleCoilRequest(addr: uint16, state: bool)

  /**
   * `WriteSingleCoilRequest::from_modbus_data`: present exactly when four bytes are
   * given. The state word is not validated: any non-zero word means on.
   */
  function CoilFromModbusData(data: seq<uint8>): (r: Option<WriteSingleCoilRequest>)
    ensures r.Some? <==> |data| >= 4
    ensures r.Some? ==> r.value.addr == Word(data[0], data[1])
    ensures r.Some? ==> (r.value.state <==> Word(data[2], data[3]) != 0)
  {
    if |data| >= 4 then Some(CoilFromModbusDataUnchecked(data)) else None
  }

  /** `WriteSingleCoilRequest::from_modbus_data_unchecked`. */
  function CoilFromModbusDataUnchecked(data: seq<uint8>): (r: WriteSingleCoilRequest)
    requires |data| >= 4
    ensures BeBytes(r.addr) == data[..2]
    ensures r.state <==> data[2..4] != [0, 0]
  {
    var addr := Word(data[0], data[1]);
    var state := Word(data[2], data[3]);
    BeBytesOfWord(data[0], data[1]);
    BeBytesOfWord(data[2], data[3]);
    CoilFromAddrStateUnchecked(addr, state)
  }

  /**
   * `WriteSingleCoilRequest::from_addr_state`: refuses a state word other than
   * 0x0000 and 0xFF00; the request is on exactly for 0xFF00.
   */
  function CoilFromAddrState(addr: uint16, state: uint16): (r: Option<WriteSingleCoilRequest>)
    ensures r.Some? <==> state == 0 || state == 0xFF00
    ensures r.Some? ==> r.value.addr == addr && (r.value.state <==> state == 0xFF00)
  {
    if state != 0 && state != 0xFF00 then None
    else Some(CoilFromAddrStateUnchecked(addr, state))
  }

  /** `WriteSingleCoilRequest::from_addr_state_unchecked`: every non-zero word means on. */
  function CoilFromAddrStateUnchecked(addr: uint16, state: uint16): (r: WriteSingleCoilRequest)
    ensures r.addr == addr && (r.state <==> state != 0)
  {
    WriteSingleCoilRequest(addr, state != 0)
  }

  /** `WriteSingleCoilRequest::new_as_modbus_data`: `[5, addr hi, addr lo, 0xFF or 0x00, 0x00]`. */
  function CoilNewAsModbusData(addr: uint16, state: bool): (r: seq<uint8>)
    ensures |r| == 5 && r[0] == Function.PublicCode(Function.WriteSingleCoil)
    ensures Word(r[1], r[2]) == addr && Word(r[3], r[4]) == (if state then 0xFF00 else 0)
  {
    var addrBytes := BeBytes(addr);
    [Function.PublicCode(Function.WriteSingleCoil), addrBytes[0], addrBytes[1], if state then 0xFF else 0x00, 0x00]
  }

  /** `WriteSingleCoilRequest::as_modbus_data`: its bytes after the code parse back to the request. */
  function CoilAsModbusData(req: WriteSingleCoilRequest): (r: seq<uint8>)
    ensures |r| == 5 && r[0] == Function.PublicCode(Function.WriteSingleCoil)
    ensures CoilFromModbusData(r[1..]) == Some(req)
  {
    CoilNewAsModbusData(req.addr, req.state)
  }

  /**
   * The parse accepts state words the protocol forbids: 0x0001 is read as on,
   * although `from_addr_state` refuses it.
   */
  lemma CoilStateNotValidated(addr: uint16)
    ensures CoilFromModbusData(BeBytes(addr) + [0x00, 0x01]) == Some(WriteSingleCoilRequest(addr, true))
    ensures CoilFromAddrState(addr, 0x0001).None?
  {
    var data := BeBytes(addr) + [0x00, 0x01];
    BeBytesOfWord(data[0], data[1]);
    BeBytesInjective(Word(data[0], data[1]), addr);
  }

  datatype WriteSingleRegisterRequest = WriteSingleRegisterRequest(addr: uint16, val: uint16)

  /** `WriteSingleRegisterRequest::from_modbus_data`: present exactly when four bytes are given. */
  function RegisterFromModbusData(data: seq<uint8>): (r: Option<WriteSingleRegisterRequest>)
    ensures r.Some? <==> |data| >= 4
    ensures r.Some? ==> BeBytes(r.value.addr) + BeBytes(r.value.val) == data[..4]
  {
    if |data| >= 4 then Some(RegisterFromModbusDataUnchecked(data)) else None
  }

  /** `WriteSingleRegisterRequest::from_modbus_data_unchecked`: address and value, big-endian. */
  function RegisterFromModbusDataUnchecked(data: seq<uint8>): (r: WriteSingleRegisterRequest)
    requires |data| >= 4
    ensures BeBytes(r.addr) + BeBytes(r.val) == data[..4]
  {
    BeBytesOfWord(data[0], data[1]);
    BeBytesOfWord(data[2], data[3]);
    WriteSingleRegisterRequest(Word(data[0], data[1]), Word(data[2], data[3]))
  }

  /**
   * `WriteSingleRegisterRequest::new_as_modbus_data` as written: the body is right
   * but the leading function code is that of Write Single Coil (5), not 6.
   */
  function RegisterNewAsModbusDataAsWritten(addr: uint16, val: uint16): (r: seq<uint8>)
    ensures |r| == 5 && r[0] == Function.PublicCode(Function.WriteSingleCoil)
    ensures Word(r[1], r[2]) == addr && Word(r[3], r[4]) == val
  {
    var addrBytes := BeBytes(addr);
    var valBytes := BeBytes(val);
    [Function.PublicCode(Function.WriteSingleCoil), addrBytes[0], addrBytes[1], valBytes[0], valBytes[1]]
  }

  /**
   * What the wrong code does: a register write of 0x1234 to address 0 is
   * classified as Write Single Coil, and the coil parser then reads it as a coil
   * write turning coil 0 on.
   */
  lemma RegisterEncodingAsWrittenIsACoilWrite()
    ensures var (f, rest) := Function.GetFunction(RegisterNewAsModbusDataAsWritten(0, 0x1234));
      && f == Some(Function.Public(Function.WriteSingleCoil))
      && rest.Some? && CoilFromModbusData(rest.value) == Some(WriteSingleCoilRequest(0, true))
  {
    var r := RegisterNewAsModbusDataAsWritten(0, 0x1234);
    assert Word(r[3], r[4]) != 0;
    Function.IntoFromU8(Function.Public(Function.WriteSingleCoil));
  }

  /** `WriteSingleRegisterRequest::new_as_modbus_data` with the Write Single Register code (6). */
  function RegisterNewAsModbusData(addr: uint16, val: uint16): (r: seq<uint8>)
    ensures |r| == 5 && r[0] == Function.PublicCode(Function.WriteSingleRegister)
    ensures Word(r[1], r[2]) == addr && Word(r[3], r[4]) == val
  {
    var addrBytes := BeBytes(addr);
    var valBytes := BeBytes(val);
    [Function.PublicCode(Function.WriteSingleRegister), addrBytes[0], addrBytes[1], valBytes[0], valBytes[1]]
  }

  /**
   * `WriteSingleRegisterRequest::as_modbus_data` as written: it delegates to the
   * encoder above, so the frame carries code 5 while its body still parses back
   * to the request.
   */
  function RegisterAsModbusDataAsWritten(req: WriteSingleRegisterRequest): (r: seq<uint8>)
    ensures |r| == 5 && r[0] == Function.PublicCode(Function.WriteSingleCoil)
    ensures RegisterFromModbusData(r[1..]) == Some(req)
  {
    var r := RegisterNewAsModbusDataAsWritten(req.addr, req.val);
    var back := RegisterFromModbusDataUnchecked(r[1..]);
    BeBytesInjective(back.addr, req.addr);
    BeBytesInjective(back.val, req.val);
    r
  }

  /**
   * `WriteSingleRegisterRequest::as_modbus_data` over the corrected encoder: its
   * bytes after the Write Single Register code parse back to the request.
   */
  function RegisterAsModbusData(req: WriteSingleRegisterRequest): (r: seq<uint8>)
    ensures |r| == 5 && r[0] == Function.PublicCode(Function.WriteSingleRegister)
    ensures RegisterFromModbusData(r[1..]) == Some(req)
  {
    var r := RegisterNewAsModbusData(req.addr, req.val);
    var back := RegisterFromModbusDataUnchecked(r[1..]);
    BeBytesInjective(back.addr, req.addr);
    BeBytesInjective(back.val, req.val);
    r
  }

  /**
   * With the corrected code an encoded register write is classified as Write
   * Single Register and parses back to the same request.
   */
  lemma RegisterFrameRoundTrip(req: WriteSingleRegisterRequest)
    ensures var (f, rest) := Function.GetFunction(RegisterAsModbusData(req));
      && f == Some(Function.Public(Function.WriteSingleRegister))
      && rest.Some? && RegisterFromModbusData(rest.value) == Some(req)
  {
  }
}
