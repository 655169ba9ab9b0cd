/**
 * The field readers and the address/quantity pair of util/mod.rs. The pair is
 * the 4-byte `[addr hi, addr lo, quantity hi, quantity lo]` prefix shared by the
 * read requests.
 */
module UtilMod {
  import opened BigEndian
  import opened Wrappers
  import Util

  /**
   * `get_write_quantity`: a big-endian word and the bytes after it. Inputs of fewer
   * than three bytes are refused and returned whole as the tail.
   */
  function GetWriteQuantity(data: seq<uint8>): (r: (Option<uint16>, seq<uint8>))
    ensures r.0.None? <==> |data| < 3
    ensures r.0.None? ==> r.1 == data
    ensures r.0.Some? ==> BeBytes(r.0.value) + r.1 == data
  {
    if |data| < 3 then (None, data)
    else
      var (quantity, tail) := GetWriteQuantityUnchecked(data);
      (Some(quantity), tail)
  }

  /** `get_write_quantity_unchecked`: reads the first two bytes; the caller guarantees them. */
  function GetWriteQuantityUnchecked(data: seq<uint8>): (r: (uint16, seq<uint8>))
    requires |data| >= 2
    ensures BeBytes(r.0) + r.1 == data
  {
    Util.ReadU16Unchecked(data)
  }

  /** `get_start_addr`: the same computation as `get_write_quantity`. */
  function GetStartAddr(data: seq<uint8>): (r: (Option<uint16>, seq<uint8>))
    ensures r == GetWriteQuantity(data)
  {
    if |data| < 3 then (None, data)
    else
      var (addr, tail) := GetWriteQuantityUnchecked(data);
      (Some(addr), tail)
  }

  /** `get_start_addr_unchecked`: the same computation as `get_write_quantity_unchecked`. */
  function GetStartAddrUnchecked(data: seq<uint8>): (r: (uint16, seq<uint8>))
    requires |data| >= 2
    ensures r == GetWriteQuantityUnchecked(data)
  {
    (Word(data[0], data[1]), data[2..])
  }

  datatype AddrQuantity = AddrQuantity(addr: uint16, quantity: uint16)

  /** `AddrQuantity::SIZE`: the encoded pair takes four bytes. */
  const SIZE: nat := 4

  /** The four bytes of a pair as `write_to_modbus_data_unchecked` lays them out. */
  function Encode(aq: AddrQuantity): (r: seq<uint8>)
    ensures |r| == SIZE
    ensures Word(r[0], r[1]) == aq.addr && Word(r[2], r[3]) == aq.quantity
  {
    BeBytes(aq.addr) + BeBytes(aq.quantity)
  }

  /** `from_modbus_data_unchecked`: the pair in the first four bytes and the tail after them. */
  function FromModbusDataUnchecked(data: seq<uint8>): (r: (AddrQuantity, seq<uint8>))
    requires |data| >= SIZE
    ensures Encode(r.0) + r.1 == data
  {
    var r := (AddrQuantity(Word(data[0], data[1]), Word(data[2], data[3])), data[4..]);
    assert Encode(r.0) == data[..4];
    r
  }

  /**
   * `from_modbus_data` as written: its guard refuses fewer than three bytes, so a
   * 3-byte input reaches the unchecked 4-byte read (undefined behaviour).
   */
  function FromModbusDataAsWritten(data: seq<uint8>): (r: Checked<(Option<AddrQuantity>, seq<uint8>)>)
    ensures r.Undefined? <==> |data| == 3
    ensures |data| < 3 ==> r == Defined((None, data))
    ensures r.Defined? && r.value.0.Some? ==> Encode(r.value.0.value) + r.value.1 == data
  {
    if |data| < 3 then Defined((None, data))
    else if |data| < SIZE then Undefined
    else
      var (me, tail) := FromModbusDataUnchecked(data);
      Defined((Some(me), tail))
  }

  /** The input that the as-written guard lets through to an out-of-bounds read. */
  lemma FromModbusDataAsWrittenReadsPastEnd()
    ensures FromModbusDataAsWritten([0, 1, 2]).Undefined?
  {
  }

  /**
   * `from_modbus_data` with the guard the unchecked read needs (fewer than four
   * bytes are refused and returned whole as the tail).
   */
  function FromModbusData(data: seq<uint8>): (r: (Option<AddrQuantity>, seq<uint8>))
    ensures r.0.None? <==> |data| < SIZE
    ensures r.0.None? ==> r.1 == data
    ensures r.0.Some? ==> Encode(r.0.value) + r.1 == data
  {
    if |data| < SIZE then (None, data)
    else
      var (me, tail) := FromModbusDataUnchecked(data);
      (Some(me), tail)
  }

  /** Wherever the as-written parser is defined, the corrected one returns the same. */
  lemma FromModbusDataRefinesAsWritten(data: seq<uint8>)
    requires FromModbusDataAsWritten(data).Defined?
    ensures FromModbusData(data) == FromModbusDataAsWritten(data).value
  {
  }

  /** Decoding an encoded pair gives the pair back and leaves what follows as the tail. */
  lemma DecodeEncode(aq: AddrQuantity, tail: seq<uint8>)
    ensures FromModbusDataUnchecked(Encode(aq) + tail) == (aq, tail)
    ensures FromModbusData(Encode(aq) + tail) == (Some(aq), tail)
  {
    var data := Encode(aq) + tail;
    var (me, rest) := FromModbusDataUnchecked(data);
    assert data[..4] == Encode(aq) && data[4..] == tail;
    BeBytesOfWord(data[0], data[1]);
    BeBytesOfWord(data[2], data[3]);
    BeBytesInjective(me.addr, aq.addr);
    BeBytesInjective(me.quantity, aq.quantity);
  }

  /**
   * `write_to_modbus_data_unchecked` on the sub-slice `out[start..]`: the four
   * bytes of the pair go to `out[start..start + 4]`; nothing else changes.
   */
  method WriteToModbusDataUnchecked(aq: AddrQuantity, out: array<uint8>, start: nat)
    requires start + SIZE <= out.Length
    modifies out
    ensures out[..] == old(out[..start]) + Encode(aq) + old(out[start + SIZE..])
  {
    var addrBytes := BeBytes(aq.addr);
    out[start] := addrBytes[0];
    out[start + 1] := addrBytes[1];
    var quantityBytes := BeBytes(aq.quantity);
    out[start + 2] := quantityBytes[0];
    out[start + 3] := quantityBytes[1];
    assert out[..] == old(out[..start]) + Encode(aq) + old(out[start + SIZE..]);
  }

  /**
   * `write_to_modbus_data`: panics, leaving `out` as it was, when `out` is shorter
   * than four bytes; otherwise writes the pair into `out[0..4]`.
   */
  method WriteToModbusData(aq: AddrQuantity, out: array<uint8>) returns (panicked: bool)
    modifies out
    ensures panicked <==> out.Length < SIZE
    ensures panicked ==> out[..] == old(out[..])
    ensures !panicked ==> out[..] == Encode(aq) + old(out[SIZE..])
  {
    if out.Length < SIZE {
      return true;
    }
    WriteToModbusDataUnchecked(aq, out, 0);
    return false;
  }
}
