/**
 * The crate carries two generations of the same requests side by side: the
 * `requests`/`functions` modules exported from lib.rs, and the older
 * `request`/`function` modules. These lemmas pin down where they agree and where
 * they part ways.
 */
module Revisions {
  import opened BigEndian
  import opened Wrappers
  import opened Errors
  import Functions
  import Function
  import RequestsRead
  import RequestRead
  import RequestsWriteSingle
  import RequestWriteSingle
  import BitStates

  /**
   * Read requests: on a non-zero quantity both parsers read the same address,
   * quantity and tail; a zero quantity is accepted by `requests::read` and
   * refused, with the input handed back, by `request::read`.
   */
  lemma ReadParsersAgree(data: seq<uint8>)
    requires |data| >= 4
    ensures RequestsRead.FromData(data).Success?
    ensures var (req, tail) := RequestsRead.FromData(data).value;
      var (older, olderTail) := RequestRead.FromModbusData(data);
      && (older.Some? <==> req.quantity > 0)
      && (older.Some? ==> older.value.addr == req.addr && older.value.quantity == req.quantity
                          && olderTail == Some(tail))
      && (older.None? ==> olderTail == Some(data))
  {
    var (req, tail) := RequestsRead.FromData(data).value;
    assert RequestsRead.IntoData(req) + tail == data;
    var ib := RequestsRead.IntoData(req);
    assert ib[0] == data[0] && ib[1] == data[1] && ib[2] == data[2] && ib[3] == data[3];
    assert tail == data[4..];
    var (older, olderTail) := RequestRead.FromModbusData(data);
    if older.Some? {
      var ob := RequestRead.Body(older.value);
      assert ob + olderTail.value == data;
      assert ob[0] == data[0] && ob[1] == data[1] && ob[2] == data[2] && ob[3] == data[3];
      assert olderTail.value == data[4..];
    }
  }

  /** The zero-quantity read that the two revisions decide differently. */
  lemma ZeroQuantityRead()
    ensures RequestsRead.FromData([0, 0, 0, 0]) == Success((RequestsRead.ReadRequest(0, 0), []))
    ensures RequestRead.FromModbusData([0, 0, 0, 0]) == (None, Some([0, 0, 0, 0]))
  {
    ReadParsersAgree([0, 0, 0, 0]);
  }

  /**
   * The older classifier counts every code from 0 to 24 as public; the exported
   * one only the documented codes. Every code the exported one accepts, the older
   * one accepts too, and they differ on exactly 0, 9, 10, 13, 14, 18 and 19.
   */
  lemma PublicCodes(code: uint8)
    ensures Functions.IsPublicFunction(code) ==> Function.IsPublicFunction(code)
    ensures Function.IsPublicFunction(code) && !Functions.IsPublicFunction(code)
      <==> code in {0, 9, 10, 13, 14, 18, 19}
  {
  }

  /**
   * Write Single Coil: on the two legal state words both revisions parse the
   * same address and state; on any other word `requests::write::single` refuses
   * with `Invalid` while `request::write::single` reads it as on.
   */
  lemma CoilParsersAgreeOnLegalStates(data: seq<uint8>)
    requires |data| >= 4
    ensures var older := RequestWriteSingle.CoilFromModbusData(data);
      match RequestsWriteSingle.FromData(data)
      case Success((req, _)) =>
        older == Some(RequestWriteSingle.WriteSingleCoilRequest(req.addr, BitStates.IsOn(req.state)))
      case Failure(e) =>
        e == Invalid && older.Some? && older.value.state
  {
    var older := RequestWriteSingle.CoilFromModbusData(data);
    var r := RequestsWriteSingle.FromData(data);
    if r.Success? {
      var (req, tail) := r.value;
      var enc := RequestsWriteSingle.IntoData(req);
      assert enc[1..] + tail == data;
      assert enc[1] == data[0] && enc[2] == data[1] && enc[3] == data[2] && enc[4] == data[3];
      BitStates.DecodeEncode(req.state);
    }
  }

  /** The state word 0x0001: refused by one revision, a coil switched on by the other. */
  lemma CoilStateOne()
    ensures RequestsWriteSingle.FromData([0, 0, 0, 1]) == Failure(Invalid)
    ensures RequestWriteSingle.CoilFromModbusData([0, 0, 0, 1]) == Some(RequestWriteSingle.WriteSingleCoilRequest(0, true))
  {
    CoilParsersAgreeOnLegalStates([0, 0, 0, 1]);
  }
}
