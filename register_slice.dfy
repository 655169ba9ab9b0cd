/**
 * The register view of registerslice.rs: an even-length run of bytes read as
 * big-endian 16-bit registers, decoded on demand.
 */
module RegisterSlices {
  import opened BigEndian
  import opened Wrappers
  import opened Errors

  /** The borrowed bytes; only `New` (or the unchecked constructor) builds one. */
  datatype RegisterSlice = RegisterSlice(bytes: seq<uint8>)

  /** `RegisterSlice::new`: refuses an odd number of bytes with `Invalid`. */
  function New(bytes: seq<uint8>): (r: Result<RegisterSlice, SerializationError>)
    ensures r.Failure? <==> |bytes| % 2 == 1
    ensures r.Failure? ==> r.error == Invalid
    ensures r.Success? ==> Bytes(r.value) == bytes && BytesLen(r.value) == 2 * Len(r.value)
  {
    if |bytes| % 2 == 0 then Success(RegisterSlice(bytes)) else Failure(Invalid)
  }

  /**
   * `RegisterSlice::new_unchecked`: a view over any bytes; on an even length it is
   * the view `New` builds.
   */
  function NewUnchecked(bytes: seq<uint8>): (r: RegisterSlice)
    ensures Bytes(r) == bytes
    ensures |bytes| % 2 == 0 ==> New(bytes) == Success(r)
  {
    RegisterSlice(bytes)
  }

  /** `TryFrom<&[u8]>`: the same construction as `New`. */
  function TryFrom(data: seq<uint8>): (r: Result<RegisterSlice, SerializationError>)
    ensures r.Failure? <==> |data| % 2 == 1
    ensures r.Failure? ==> r.error == Invalid
    ensures r.Success? ==> Bytes(r.value) == data
  {
    New(data)
  }

  /** `get`: the register at `idx`, present exactly when its two bytes are inside the view. */
  function Get(rs: RegisterSlice, idx: nat): (r: Option<uint16>)
    ensures r.Some? <==> idx < Len(rs)
    ensures r.Some? ==> BeBytes(r.value) == Bytes(rs)[2 * idx .. 2 * idx + 2]
  {
    if |rs.bytes| >= (idx + 1) * 2 then Some(GetUnchecked(rs, idx)) else None
  }

  /** `get_unchecked`: the big-endian word at bytes `2 * idx` and `2 * idx + 1`. */
  function GetUnchecked(rs: RegisterSlice, idx: nat): (r: uint16)
    requires 2 * idx + 2 <= BytesLen(rs)
    ensures BeBytes(r) == Bytes(rs)[2 * idx .. 2 * idx + 2]
  {
    var bidx := idx * 2;
    Word(rs.bytes[bidx], rs.bytes[bidx + 1])
  }

  /** `len`: the number of whole registers. */
  function Len(rs: RegisterSlice): (n: nat)
    ensures 2 * n <= BytesLen(rs) < 2 * n + 2
  {
    |rs.bytes| / 2
  }

  /** `bytes_len`. */
  function BytesLen(rs: RegisterSlice): (n: nat)
    ensures n == |Bytes(rs)|
  {
    |rs.bytes|
  }

  /** `bytes`: the slice the view was built from. */
  function Bytes(rs: RegisterSlice): (b: seq<uint8>)
    ensures RegisterSlice(b) == rs
  {
    rs.bytes
  }

  /** Every register of the view, in order: what `get` returns for each index. */
  function Registers(rs: RegisterSlice): (words: seq<uint16>)
    ensures |words| == Len(rs)
    ensures forall i :: 0 <= i < |words| ==> Get(rs, i) == Some(words[i])
  {
    seq(Len(rs), i requires 0 <= i < Len(rs) => GetUnchecked(rs, i))
  }

  /** Two even-length views with the same registers are over the same bytes. */
  lemma {:induction false} RegistersDetermineBytes(a: RegisterSlice, b: RegisterSlice)
    requires BytesLen(a) % 2 == 0 && BytesLen(b) % 2 == 0
    requires Registers(a) == Registers(b)
    ensures Bytes(a) == Bytes(b)
  {
    assert |Registers(a)| == Len(a) && |Registers(b)| == Len(b);
    forall k | 0 <= k < BytesLen(a)
      ensures Bytes(a)[k] == Bytes(b)[k]
    {
      var i := k / 2;
      assert Get(a, i) == Some(Registers(a)[i]) && Get(b, i) == Some(Registers(b)[i]);
      assert Bytes(a)[2 * i .. 2 * i + 2] == Bytes(b)[2 * i .. 2 * i + 2];
      assert Bytes(a)[k] == Bytes(a)[2 * i .. 2 * i + 2][k - 2 * i];
    }
  }
}
