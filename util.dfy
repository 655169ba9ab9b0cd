/** The primitive big-endian word reader of util.rs, checked and unchecked. */
module Util {
  import opened BigEndian
  import opened Wrappers

  /**
   * `read_u16`: the first two bytes as a big-endian word, and the bytes after them.
   * Fails (None) on fewer than two bytes.
   */
  function ReadU16(data: seq<uint8>): (r: Option<(uint16, seq<uint8>)>)
    ensures r.None? <==> |data| < 2
    ensures r.Some? ==> BeBytes(r.value.0) + r.value.1 == data
  {
    if |data| < 2 then None
    else Some((Word(data[0], data[1]), data[2..]))
  }

  /** `read_u16_unchecked`: the same word and tail, for callers that guarantee two bytes. */
  function ReadU16Unchecked(data: seq<uint8>): (r: (uint16, seq<uint8>))
    requires |data| >= 2
    ensures ReadU16(data) == Some(r)
  {
    (Word(data[0], data[1]), data[2..])
  }

  /** Whatever follows the two word bytes is returned untouched as the tail. */
  lemma ReadU16OfEncoded(w: uint16, tail: seq<uint8>)
    ensures ReadU16(BeBytes(w) + tail) == Some((w, tail))
  {
    var data := BeBytes(w) + tail;
    assert data[2..] == tail;
  }
}
