/**
 * Slave identifiers of slaveid.rs: 0 is broadcast, 1 to 247 address devices and
 * 248 to 255 are reserved (section 2.2 of the MODBUS over Serial Line
 * Specification V1.02); 0xFF is the conventional id of Modbus TCP.
 */
module SlaveIds {
  import opened BigEndian
  import opened Wrappers

  datatype SlaveId = SlaveId(id: uint8)

  /** `new_default_tcp`: 0xFF, a reserved id. */
  function NewDefaultTcp(): (s: SlaveId)
    ensures IsDefaultTcp(s) && IsReserved(s) && !IsDevice(s)
  {
    SlaveId(0xFF)
  }

  /** `new_broadcast`: the id every device reacts to. */
  function NewBroadcast(): (s: SlaveId)
    ensures IsBroadcast(s) && !IsDevice(s) && !IsReserved(s)
    ensures forall other :: MustReact(other, s)
  {
    SlaveId(0)
  }

  /** `is_device`: neither broadcast nor reserved. */
  predicate IsDevice(s: SlaveId)
    ensures IsDevice(s) <==> 1 <= s.id <= 247
  {
    !IsBroadcast(s) && !IsReserved(s)
  }

  /** `is_reserved`: 248 and above (the code includes 248, unlike its own comment). */
  predicate IsReserved(s: SlaveId)
    ensures IsReserved(s) ==> !IsBroadcast(s)
    ensures s.id == 248 ==> IsReserved(s)
  {
    s.id >= 248
  }

  /** `is_broadcast`. */
  predicate IsBroadcast(s: SlaveId)
    ensures IsBroadcast(s) ==> forall other: SlaveId :: MustReact(other, s)
  {
    s.id == 0
  }

  /** `is_default_tcp`. */
  predicate IsDefaultTcp(s: SlaveId)
    ensures IsDefaultTcp(s) ==> IsReserved(s) && !IsDevice(s)
  {
    s.id == 0xFF
  }

  /** `must_react`: a device with id `s` handles requests addressed to `other`. */
  predicate MustReact(s: SlaveId, other: SlaveId)
    ensures MustReact(s, other) <==> other.id == 0 || other == s
  {
    if other.id == 0 then true else s.id == other.id
  }

  /** Broadcast, device and reserved split the 256 ids: each id is in exactly one class. */
  lemma Partition(s: SlaveId)
    ensures IsDevice(s) <==> 1 <= s.id <= 247
    ensures IsBroadcast(s) || IsDevice(s) || IsReserved(s)
    ensures !(IsBroadcast(s) && IsDevice(s))
    ensures !(IsBroadcast(s) && IsReserved(s))
    ensures !(IsDevice(s) && IsReserved(s))
  {
  }

  /** A device reacts to broadcasts and to its own id, and to nothing else. */
  lemma MustReactExactly(s: SlaveId, other: SlaveId)
    ensures MustReact(s, other) <==> IsBroadcast(other) || other == s
    ensures MustReact(s, s)
  {
  }

  /**
   * `get_slaveid`: the first byte as an id and the remaining bytes; both absent on
   * empty input.
   */
  function GetSlaveId(data: seq<uint8>): (r: (Option<SlaveId>, Option<seq<uint8>>))
    ensures r.0.None? <==> |data| == 0
    ensures r.1.None? <==> |data| == 0
    ensures r.0.Some? && r.1.Some? ==> [r.0.value.id] + r.1.value == data
  {
    (if |data| >= 1 then Some(SlaveId(data[0])) else None,
     if |data| >= 1 then Some(data[1..]) else None)
  }

  /** `get_slaveid_unchecked`: the same split, for callers that guarantee a byte. */
  function GetSlaveIdUnchecked(data: seq<uint8>): (r: (SlaveId, seq<uint8>))
    requires |data| >= 1
    ensures GetSlaveId(data) == (Some(r.0), Some(r.1))
  {
    (SlaveId(data[0]), data[1..])
  }
}
