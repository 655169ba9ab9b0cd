/**
 * The Write Multiple Registers request of write/multiple_registers.rs (function
 * code 16, section 6.12 of the Modbus Application Protocol Specification V1.1b3):
 * a start address and a register view. The PDU is the function code, the address,
 * the register count, the byte count and the register bytes, all big-endian.
 */
module MultipleRegisters {
  import opened BigEndian
  import opened Wrappers
  import opened Errors
  import RegisterSlices
  import Functions
  import Util

  datatype WriteMultipleRegisters = WriteMultipleRegisters(addr: uint16, registers: RegisterSlices.RegisterSlice)

  const MODBUS_FUNCTION_CODE: Functions.PublicModbusFunction := Functions.WriteMultipleRegisters
  /** The shortest input after the function code: header rest (5 bytes) and one register. */
  const MIN_INPUT_SIZE: nat := 7
  /** Function code, address, count and byte count. */
  const HEADER_SIZE: nat := 6
  /** The shortest output: the header and one register. */
  const MIN_OUTPUT_SIZE: nat := 8
  /** The largest number of registers one request may write. */
  const MAX_REGISTERS: nat := 123

  /** What `new` guarantees: 1 to 123 registers that stay inside the 16-bit address space. */
  predicate Valid(w: WriteMultipleRegisters)
    ensures Valid(w) ==> 2 <= RegisterSlices.BytesLen(w.registers) <= 247
  {
    var n := RegisterSlices.Len(w.registers);
    1 <= n <= MAX_REGISTERS && w.addr + n <= 0xFFFF
  }

  /** `u16::overflowing_add`: the wrapped sum and whether it wrapped. */
  function OverflowingAdd(a: uint16, b: uint16): (r: (uint16, bool))
    ensures r.1 <==> a + b > 0xFFFF
    ensures r.0 == (a + b) % 0x1_0000
  {
    if a + b > 0xFFFF then (a + b - 0x1_0000, true) else (a + b, false)
  }

  /**
   * `WriteMultipleRegisters::new`: no registers is `Invalid`, more than 123 is
   * `TooLarge`, passing address 0xFFFF is `Overflow`; otherwise the request as given.
   */
  function New(addr: uint16, registers: RegisterSlices.RegisterSlice): (r: Result<WriteMultipleRegisters, SerializationError>)
    ensures RegisterSlices.Len(registers) == 0 ==> r == Failure(Invalid)
    ensures RegisterSlices.Len(registers) > MAX_REGISTERS ==> r == Failure(TooLarge)
    ensures 1 <= RegisterSlices.Len(registers) <= MAX_REGISTERS && addr + RegisterSlices.Len(registers) > 0xFFFF ==>
      r == Failure(Overflow)
    ensures r.Success? <==> Valid(WriteMultipleRegisters(addr, registers))
    ensures r.Success? ==> Addr(r.value) == addr && Registers(r.value) == registers
  {
    var n := RegisterSlices.Len(registers);
    if n == 0 then Failure(Invalid)
    else if n > MAX_REGISTERS then Failure(TooLarge)
    else if OverflowingAdd(addr, n).1 then Failure(Overflow)
    else Success(NewUnchecked(addr, registers))
  }

  /** `WriteMultipleRegisters::new_unchecked`: the request as given, valid or not. */
  function NewUnchecked(addr: uint16, registers: RegisterSlices.RegisterSlice): (r: WriteMultipleRegisters)
    ensures Addr(r) == addr && Registers(r) == registers
  {
    WriteMultipleRegisters(addr, registers)
  }

  /** On the inputs `new` accepts, the unchecked constructor builds the same request. */
  lemma UncheckedAgreesWithChecked(addr: uint16, registers: RegisterSlices.RegisterSlice)
    requires Valid(WriteMultipleRegisters(addr, registers))
    ensures New(addr, registers) == Success(NewUnchecked(addr, registers))
  {
  }

  /** `addr`. */
  function Addr(w: WriteMultipleRegisters): (a: uint16)
    ensures Valid(w) ==> a < 0xFFFF
  {
    w.addr
  }

  /** `registers`. */
  function Registers(w: WriteMultipleRegisters): (rs: RegisterSlices.RegisterSlice)
    ensures Valid(w) ==> 1 <= RegisterSlices.Len(rs) <= MAX_REGISTERS
  {
    w.registers
  }

  /**
   * `data_size`: the bytes the encoded request takes, header included. A valid
   * request fits the 253-byte limit of a Modbus PDU.
   */
  function DataSize(w: WriteMultipleRegisters): (n: nat)
    ensures n == HEADER_SIZE + |RegisterSlices.Bytes(w.registers)|
    ensures Valid(w) ==> MIN_OUTPUT_SIZE <= n <= 253
  {
    RegisterSlices.BytesLen(w.registers) + HEADER_SIZE
  }

  /**
   * `from_data`: fewer than seven bytes is `UnexpectedEOF { expected: 7, got }`;
   * otherwise the outcome of `from_data_unchecked`.
   */
  function FromData(data: seq<uint8>): (r: Result<WriteMultipleRegisters, SerializationError>)
    ensures |data| < MIN_INPUT_SIZE ==> r == Failure(UnexpectedEOF(MIN_INPUT_SIZE, |data|))
    ensures |data| >= MIN_INPUT_SIZE ==> r == FromDataUnchecked(data)
    ensures r.Success? ==> Valid(r.value)
  {
    if |data| < MIN_INPUT_SIZE then Failure(UnexpectedEOF(MIN_INPUT_SIZE, |data|))
    else FromDataUnchecked(data)
  }

  /**
   * `from_data_unchecked`, on the bytes after the function code (it reads five
   * bytes before checking anything). With `q` the count word and `nb` the byte
   * count, the checks run in this order: `nb / 2 != q` is `Ambivalent`; fewer
   * than `nb` register bytes is `UnexpectedEOF { expected: nb + 5, got }`; an odd
   * `nb` is `Invalid` from the register view; then the checks of `new`.
   * Bytes after the registers are ignored.
   */
  function FromDataUnchecked(data: seq<uint8>): (r: Result<WriteMultipleRegisters, SerializationError>)
    requires |data| >= 5
    ensures var addr, q, nb := Word(data[0], data[1]), Word(data[2], data[3]), data[4] as nat;
      && (nb / 2 != q ==> r == Failure(Ambivalent))
      && (nb / 2 == q && |data| < nb + 5 ==> r == Failure(UnexpectedEOF(nb + 5, |data|)))
      && (nb / 2 == q && |data| >= nb + 5 && nb % 2 == 1 ==> r == Failure(Invalid))
      && (nb == 2 * q && |data| >= nb + 5 ==>
            && (q == 0 ==> r == Failure(Invalid))
            && (q > MAX_REGISTERS ==> r == Failure(TooLarge))
            && (1 <= q <= MAX_REGISTERS && addr + q > 0xFFFF ==> r == Failure(Overflow)))
      && (r.Success? <==> nb == 2 * q && |data| >= nb + 5 && 1 <= q <= MAX_REGISTERS && addr + q <= 0xFFFF)
      && (r.Success? ==> r.value == WriteMultipleRegisters(addr, RegisterSlices.RegisterSlice(data[5 .. 5 + nb])))
  {
    var (addr, rest) := Util.ReadU16Unchecked(data);
    var (quantity, rest) := Util.ReadU16Unchecked(rest);
    assert addr == Word(data[0], data[1]) && rest == data[4..] && quantity == Word(data[2], data[3]) by {
      BeBytesOfWord(data[0], data[1]);
      BeBytesOfWord(data[2], data[3]);
      assert BeBytes(addr) == data[..2];
      assert BeBytes(quantity) == data[2..4];
      BeBytesInjective(addr, Word(data[0], data[1]));
      BeBytesInjective(quantity, Word(data[2], data[3]));
    }
    var nbytes: nat := rest[0];
    if nbytes / 2 != quantity then Failure(Ambivalent)
    else if nbytes + 1 <= |rest| then
      match RegisterSlices.New(rest[1 .. nbytes + 1])
      case Failure(e) => Failure(e)
      case Success(registers) => New(addr, registers)
    else
      Failure(UnexpectedEOF(nbytes + HEADER_SIZE - 1, HEADER_SIZE - 1 + |rest| - 1))
  }

  /**
   * The PDU `write_to_slice_unchecked` lays out: code 16, address, register count,
   * byte count, register bytes. It needs the byte count to fit its one byte.
   */
  function Encode(w: WriteMultipleRegisters): (r: seq<uint8>)
    requires RegisterSlices.BytesLen(w.registers) <= 0xFF
    ensures |r| == DataSize(w)
    ensures r[0] == Functions.PublicCode(MODBUS_FUNCTION_CODE)
    ensures Word(r[1], r[2]) == w.addr && Word(r[3], r[4]) == RegisterSlices.Len(w.registers)
    ensures r[5] == RegisterSlices.BytesLen(w.registers) && r[6..] == RegisterSlices.Bytes(w.registers)
  {
    var n := RegisterSlices.Len(w.registers);
    [Functions.PublicCode(MODBUS_FUNCTION_CODE)] + BeBytes(w.addr) + BeBytes(n)
      + [RegisterSlices.BytesLen(w.registers)] + RegisterSlices.Bytes(w.registers)
  }

  /**
   * Whatever `from_data` accepts, `write_to_slice` writes back as the code 16
   * followed by exactly the bytes it read (those after the registers excluded).
   */
  lemma ParseThenEncode(data: seq<uint8>)
    requires FromData(data).Success?
    ensures var w := FromData(data).value;
      && RegisterSlices.BytesLen(w.registers) <= 0xFF
      && DataSize(w) <= |data| + 1
      && Encode(w) == [Functions.PublicCode(MODBUS_FUNCTION_CODE)] + data[.. DataSize(w) - 1]
  {
    var w := FromData(data).value;
    var nb := data[4];
    assert nb == 2 * Word(data[2], data[3]) && |data| >= nb + 5;
    assert w == WriteMultipleRegisters(Word(data[0], data[1]), RegisterSlices.RegisterSlice(data[5 .. 5 + nb]));
    var e := Encode(w);
    var expected := [Functions.PublicCode(MODBUS_FUNCTION_CODE)] + data[.. DataSize(w) - 1];
    BeBytesOfWord(data[0], data[1]);
    BeBytesOfWord(data[2], data[3]);
    assert e[1..3] == BeBytes(w.addr) == data[0..2];
    assert e[3..5] == BeBytes(Word(data[2], data[3])) == data[2..4];
    forall k | 0 <= k < |e|
      ensures e[k] == expected[k]
    {
      if 1 <= k < 3 {
        assert e[k] == e[1..3][k - 1];
      } else if 3 <= k < 5 {
        assert e[k] == e[3..5][k - 3];
      } else if k >= 6 {
        assert e[k] == e[6..][k - 6];
      }
    }
  }

  /**
   * A valid request over whole registers, once encoded, parses back to itself
   * whatever bytes follow it.
   */
  lemma EncodeThenParse(w: WriteMultipleRegisters, tail: seq<uint8>)
    requires Valid(w) && RegisterSlices.BytesLen(w.registers) % 2 == 0
    ensures FromData(Encode(w)[1..] + tail) == Success(w)
  {
    var e := Encode(w);
    var data := e[1..] + tail;
    var n := RegisterSlices.Len(w.registers);
    assert data[0] == e[1] && data[1] == e[2] && data[2] == e[3] && data[3] == e[4] && data[4] == e[5];
    assert data[4] == 2 * n;
    assert data[5 .. 5 + data[4]] == e[6..] == RegisterSlices.Bytes(w.registers);
  }

  /**
   * The request example of the protocol specification: two registers from
   * address 1, parsed from the bytes after the function code.
   */
  lemma ProtocolExampleParses()
    ensures FromData([0, 1, 0, 2, 4, 0, 0x0A, 1, 2])
      == Success(WriteMultipleRegisters(1, RegisterSlices.RegisterSlice([0, 0x0A, 1, 2])))
  {
    var data: seq<uint8> := [0, 1, 0, 2, 4, 0, 0x0A, 1, 2];
    assert Word(data[0], data[1]) == 1 && Word(data[2], data[3]) == 2 && data[4] as nat == 4;
    assert data[5 .. 9] == [0, 0x0A, 1, 2];
  }

  /** The example's registers read as the words 0x000A and 0x0102. */
  lemma ProtocolExampleRegisters()
    ensures RegisterSlices.Registers(RegisterSlices.RegisterSlice([0, 0x0A, 1, 2])) == [0x000A, 0x0102]
  {
    var rs := RegisterSlices.RegisterSlice([0, 0x0A, 1, 2]);
    var words := RegisterSlices.Registers(rs);
    assert RegisterSlices.Get(rs, 0) == Some(words[0]);
    assert RegisterSlices.Get(rs, 1) == Some(words[1]);
    BeBytesInjective(words[0], 0x000A);
    BeBytesInjective(words[1], 0x0102);
  }

  /** The parsed example is written back as the code 16 and the same ten bytes. */
  lemma ProtocolExampleEncodes()
    ensures var w := WriteMultipleRegisters(1, RegisterSlices.RegisterSlice([0, 0x0A, 1, 2]));
      DataSize(w) == 10 && Encode(w) == [16, 0, 1, 0, 2, 4, 0, 0x0A, 1, 2]
  {
    var w := WriteMultipleRegisters(1, RegisterSlices.RegisterSlice([0, 0x0A, 1, 2]));
    BeBytesOfWord(0, 1);
    BeBytesOfWord(0, 2);
    assert BeBytes(w.addr) == [0, 1] && BeBytes(RegisterSlices.Len(w.registers)) == [0, 2];
  }

  /** The malformed inputs of the source's tests and the error each one gives. */
  lemma RejectedInputs()
    ensures FromData([]) == Failure(UnexpectedEOF(7, 0))
    ensures FromData([0, 0, 0, 20, 20]) == Failure(UnexpectedEOF(7, 5))
    ensures FromData([0, 0, 0, 200, 3, 0, 0]) == Failure(Ambivalent)
    ensures FromData([0, 0, 0, 20, 20, 0, 0]) == Failure(Ambivalent)
    ensures FromData([0, 0, 0, 4, 8, 0, 0]) == Failure(UnexpectedEOF(13, 7))
    ensures FromData([0, 0, 0, 5, 10, 0, 0, 0, 0, 0, 0, 0, 0]) == Failure(UnexpectedEOF(15, 13))
    ensures FromData([0, 0, 0, 0, 0, 0, 0]) == Failure(Invalid)
    ensures FromData([0, 0, 0, 0, 1, 0, 0]) == Failure(Invalid)
  {
  }

  /**
   * `overflowing_add` refuses a request whose last register would be address
   * 0xFFFF + 1, so 123 registers from 0xFF85 (= 0xFFFF - 122) are `Overflow`,
   * while from 0xFF84 they are accepted.
   */
  lemma OverflowBoundary(registers: RegisterSlices.RegisterSlice)
    requires RegisterSlices.Len(registers) == MAX_REGISTERS
    ensures New(0xFFFF - 122, registers) == Failure(Overflow)
    ensures New(0xFFFF - 123, registers).Success?
  {
  }

  /**
   * `write_to_slice_unchecked`: the encoded request into `out[0 .. data_size]`;
   * the rest of `out` is untouched.
   */
  method WriteToSliceUnchecked(w: WriteMultipleRegisters, out: array<uint8>)
    requires RegisterSlices.BytesLen(w.registers) <= 0xFF
    requires out.Length >= DataSize(w)
    modifies out
    ensures out[..] == Encode(w) + old(out[DataSize(w)..])
  {
    out[0] := Functions.PublicCode(MODBUS_FUNCTION_CODE);
    var addrBytes := BeBytes(w.addr);
    out[1] := addrBytes[0];
    out[2] := addrBytes[1];
    var quantityBytes := BeBytes(RegisterSlices.Len(w.registers));
    out[3] := quantityBytes[0];
    out[4] := quantityBytes[1];
    var nbytes := RegisterSlices.BytesLen(w.registers);
    out[5] := nbytes;
    ghost var header := out[..HEADER_SIZE];
    CopyFromSlice(out, HEADER_SIZE, RegisterSlices.Bytes(w.registers));
    assert out[..] == header + RegisterSlices.Bytes(w.registers) + old(out[DataSize(w)..]);
  }

  /**
   * `write_to_slice`: an output shorter than `data_size` is
   * `InsufficientBuffer { expected: data_size, got }` with `out` untouched;
   * otherwise the encoded request, and the rest of `out` as it was.
   */
  method WriteToSlice(w: WriteMultipleRegisters, out: array<uint8>) returns (r: Outcome<SerializationError>)
    requires RegisterSlices.BytesLen(w.registers) <= 0xFF
    modifies out
    ensures out.Length < DataSize(w) ==>
      r == Fail(InsufficientBuffer(DataSize(w), out.Length)) && out[..] == old(out[..])
    ensures out.Length >= DataSize(w) ==>
      r == Pass && out[..] == Encode(w) + old(out[DataSize(w)..])
  {
    var dataSize := DataSize(w);
    if out.Length < dataSize {
      return Fail(InsufficientBuffer(dataSize, out.Length));
    }
    WriteToSliceUnchecked(w, out);
    return Pass;
  }
}
