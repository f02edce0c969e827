/**
 * The bytes of the block files. `write_to_disk` writes each block through
 * `gzip.GzipFile`, and every gzip member starts with the identification bytes
 * 0x1f 0x8b (section 2.3.1 of RFC 1952). `merge_blocks` reads the blocks as
 * UTF-8 text, and strict UTF-8 (section 4 of RFC 3629) refuses 0x8b as the first
 * byte of a character, so decoding stops there with UnicodeDecodeError.
 */
module Encoding {
  import opened Wrappers

  newtype byte = x: int | 0 <= x < 256

  /** ID1 and ID2 of a gzip member header. */
  const GzipId: seq<byte> := [0x1f, 0x8b]

  /** A byte sequence that starts like a gzip member. */
  predicate IsGzipMember(bytes: seq<byte>) {
    |bytes| >= 2 && bytes[..2] == GzipId
  }

  /** The length of the UTF-8 character a byte starts, or 0 when no character starts with it. */
  function CharLength(b: byte): (n: nat)
    ensures n <= 4
    ensures n == 0 <==> 0x80 <= b < 0xC2 || 0xF4 < b
  {
    if b < 0x80 then 1
    else if 0xC2 <= b <= 0xDF then 2
    else if 0xE0 <= b <= 0xEF then 3
    else if 0xF0 <= b <= 0xF4 then 4
    else 0
  }

  /** The range of the byte after a lead byte: narrower after E0, ED, F0 and F4, which rules out overlongs, surrogates and code points past U+10FFFF. */
  function SecondRange(lead: byte): (r: (byte, byte))
    ensures 0x80 <= r.0 <= r.1 <= 0xBF
  {
    if lead == 0xE0 then (0xA0, 0xBF)
    else if lead == 0xED then (0x80, 0x9F)
    else if lead == 0xF0 then (0x90, 0xBF)
    else if lead == 0xF4 then (0x80, 0x8F)
    else (0x80, 0xBF)
  }

  /** The `n` bytes at `i` form one well-formed character whose lead byte is `bytes[i]`. */
  predicate WellFormedChar(bytes: seq<byte>, i: nat, n: nat)
    requires 1 <= n && i + n <= |bytes|
  {
    (n >= 2 ==> SecondRange(bytes[i]).0 <= bytes[i + 1] <= SecondRange(bytes[i]).1) &&
    forall k :: i + 2 <= k < i + n ==> 0x80 <= bytes[k] <= 0xBF
  }

  /**
   * Where strict decoding from `i` on fails: the index of the first character that cannot be
   * decoded (the `start` of the UnicodeDecodeError), or None when the rest is well formed.
   */
  function DecodeError(bytes: seq<byte>, i: nat): (r: Option<nat>)
    requires i <= |bytes|
    ensures r.Some? ==> i <= r.value < |bytes|
    decreases |bytes| - i
  {
    if i == |bytes| then None
    else
      var n := CharLength(bytes[i]);
      if n == 0 || i + n > |bytes| || !WellFormedChar(bytes, i, n) then Some(i)
      else DecodeError(bytes, i + n)
  }

  /** Plain ASCII text, such as the records written without compression, decodes without error. */
  lemma {:induction false} AsciiDecodes(bytes: seq<byte>, i: nat)
    requires i <= |bytes|
    requires forall k :: i <= k < |bytes| ==> bytes[k] < 0x80
    ensures DecodeError(bytes, i) == None
    decreases |bytes| - i
  {
    if i < |bytes| {
      AsciiDecodes(bytes, i + 1);
    }
  }

  /**
   * Whatever part of a gzip member a text read decodes first, as long as it reaches the second
   * byte, decoding fails at that byte: 0x1f is a character of its own and 0x8b starts none.
   */
  lemma GzipMemberUndecodable(bytes: seq<byte>)
    requires IsGzipMember(bytes)
    ensures forall k :: 2 <= k <= |bytes| ==> DecodeError(bytes[..k], 0) == Some(1)
  {
    forall k | 2 <= k <= |bytes| ensures DecodeError(bytes[..k], 0) == Some(1) {
      var chunk := bytes[..k];
      assert chunk[0] == 0x1f && chunk[1] == 0x8b by {
        assert chunk[..2] == bytes[..2];
      }
      assert DecodeError(chunk, 1) == Some(1);
    }
  }
}
