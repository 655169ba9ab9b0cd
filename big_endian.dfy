/** Machine integers and the big-endian conversions of `u16`. */
module BigEndian {

  type uint8 = x: int | 0 <= x < 0x100
  type uint16 = x: int | 0 <= x < 0x1_0000

  /** `u16::from_be_bytes([hi, lo])`. */
  function Word(hi: uint8, lo: uint8): (w: uint16)
    ensures w / 0x100 == hi && w % 0x100 == lo
  {
    hi * 0x100 + lo
  }

  /** `u16::to_be_bytes(w)`: the high byte first. */
  function BeBytes(w: uint16): (r: seq<uint8>)
    ensures |r| == 2 && Word(r[0], r[1]) == w
  {
    [w / 0x100, w % 0x100]
  }

  /** Two bytes are the big-endian form of the word they decode to. */
  lemma BeBytesOfWord(hi: uint8, lo: uint8)
    ensures BeBytes(Word(hi, lo)) == [hi, lo]
  {
  }

  /** `to_be_bytes` is injective: distinct words have distinct encodings. */
  lemma BeBytesInjective(v: uint16, w: uint16)
    requires BeBytes(v) == BeBytes(w)
    ensures v == w
  {
    assert Word(BeBytes(v)[0], BeBytes(v)[1]) == v;
  }

  /**
   * `out[start..start + |src|].copy_from_slice(src)`: the source bytes replace that
   * window of `out`, and every byte outside it keeps its value.
   */
  method CopyFromSlice(out: array<uint8>, start: nat, src: seq<uint8>)
    requires start + |src| <= out.Length
    modifies out
    ensures out[..] == old(out[..start]) + src + old(out[start + |src|..])
  {
    var i := 0;
    while i < |src|
      invariant 0 <= i <= |src|
      invariant forall k :: 0 <= k < start ==> out[k] == old(out[k])
      invariant forall k :: 0 <= k < i ==> out[start + k] == src[k]
      invariant forall k :: start + i <= k < out.Length ==> out[k] == old(out[k])
    {
      out[start + i] := src[i];
      i := i + 1;
    }
    assert out[..] == old(out[..start]) + src + old(out[start + |src|..]) by {
      var expected := old(out[..start]) + src + old(out[start + |src|..]);
      forall k | 0 <= k < out.Length
        ensures out[..][k] == expected[k]
      {
        if k < start {
        } else if k < start + |src| {
          assert out[start + (k - start)] == src[k - start];
        }
      }
    }
  }
}
