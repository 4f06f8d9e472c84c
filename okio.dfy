/**
 * The okio pieces the interceptor uses: an in-memory byte `Buffer` and its
 * `readUtf8CodePoint` decoder (UTF-8 as in RFC 3629).
 */
module Okio {

  const REPLACEMENT_CHARACTER: int := 0xFFFD

  /** The outcome of reading one code point: end of input (okio throws `EOFException`) or a code point and the bytes it used. */
  datatype CodePointRead = Eof | CodePoint(value: int, size: nat)

  /** Text obtained by decoding `bytes` with the named charset; the decoding itself is not modelled. */
  datatype DecodedText = DecodedText(charset: string, bytes: seq<bv8>)

  /** How many bytes a UTF-8 sequence starting with `lead` announces; 1 for a byte that cannot start one. */
  function SequenceLength(lead: bv8): nat {
    if lead < 0x80 then 1
    else if lead < 0xC0 then 1
    else if lead < 0xE0 then 2
    else if lead < 0xF0 then 3
    else if lead < 0xF8 then 4
    else 1
  }

  predicate IsContinuation(b: bv8) {
    0x80 <= b < 0xC0
  }

  /** The six payload bits of a continuation byte (`b & 0x3f`). */
  function Payload(b: bv8): int {
    (b as int) % 64
  }

  /** Rejects overlong forms, surrogates and values past U+10FFFF after a complete sequence of `size` bytes. */
  function Checked(codePoint: int, min: int, size: nat): CodePointRead {
    if codePoint > 0x10FFFF || (0xD800 <= codePoint <= 0xDFFF) || codePoint < min
    then CodePoint(REPLACEMENT_CHARACTER, size)
    else CodePoint(codePoint, size)
  }

  /**
   * `Buffer.readUtf8CodePoint()` on the bytes `data`: end of input when the buffer
   * holds fewer bytes than the lead byte announces; U+FFFD for a byte that cannot
   * start a sequence (1 byte used), for a missing continuation byte at position i
   * (i bytes used) and for an overlong, surrogate or out-of-range value.
   */
  function DecodeUtf8CodePoint(data: seq<bv8>): (r: CodePointRead)
    ensures r.Eof? <==> data == [] || |data| < SequenceLength(data[0])
    ensures r.CodePoint? ==> 1 <= r.size <= SequenceLength(data[0]) && 0 <= r.value <= 0x10FFFF
    ensures r.CodePoint? && data[0] < 0x80 ==> r == CodePoint(data[0] as int, 1)
  {
    if data == [] then Eof
    else
      var b0 := data[0];
      var n := SequenceLength(b0);
      if |data| < n then Eof
      else if b0 < 0x80 then CodePoint(b0 as int, 1)
      else if b0 < 0xC0 || 0xF8 <= b0 then CodePoint(REPLACEMENT_CHARACTER, 1)
      else if !IsContinuation(data[1]) then CodePoint(REPLACEMENT_CHARACTER, 1)
      else if n == 2 then Checked((b0 as int - 0xC0) * 64 + Payload(data[1]), 0x80, 2)
      else if !IsContinuation(data[2]) then CodePoint(REPLACEMENT_CHARACTER, 2)
      else if n == 3 then Checked(((b0 as int - 0xE0) * 64 + Payload(data[1])) * 64 + Payload(data[2]), 0x800, 3)
      else if !IsContinuation(data[3]) then CodePoint(REPLACEMENT_CHARACTER, 3)
      else Checked((((b0 as int - 0xF0) * 64 + Payload(data[1])) * 64 + Payload(data[2])) * 64 + Payload(data[3]), 0x10000, 4)
  }

  /** An okio `Buffer`: a growable sequence of bytes read from the front. */
  class Buffer {
    var data: seq<bv8>

    constructor ()
      ensures data == []
    {
      data := [];
    }

    function Size(): nat
      reads this
    {
      |data|
    }

    /** `write(bytes)` (what `RequestBody.writeTo` does to its sink). */
    method Write(bytes: seq<bv8>)
      modifies this
      ensures data == old(data) + bytes
    {
      data := data + bytes;
    }

    /** `copyTo(out, offset, byteCount)`: appends a copy of a slice to `out`; this buffer keeps its bytes. */
    method CopyTo(out: Buffer, offset: nat, byteCount: nat)
      requires offset + byteCount <= |data|
      modifies out
      ensures out.data == old(out.data) + old(data[offset..offset + byteCount])
      ensures out != this ==> data == old(data)
    {
      var slice := data[offset..offset + byteCount];
      out.data := out.data + slice;
    }

    method Exhausted() returns (b: bool)
      ensures b <==> data == []
    {
      b := data == [];
    }

    /** `readUtf8CodePoint()`: consumes the code point's bytes; end of input consumes nothing. */
    method ReadUtf8CodePoint() returns (r: CodePointRead)
      modifies this
      ensures r == DecodeUtf8CodePoint(old(data))
      ensures data == if r.Eof? then old(data) else old(data)[r.size..]
    {
      r := DecodeUtf8CodePoint(data);
      if r.CodePoint? {
        data := data[r.size..];
      }
    }

    /** `readString(charset)`: decodes and consumes every byte. */
    method ReadString(charset: string) returns (text: DecodedText)
      modifies this
      ensures text == DecodedText(charset, old(data)) && data == []
    {
      text := DecodedText(charset, data);
      data := [];
    }

    /** `clone()`: an independent buffer with the same bytes. */
    method Clone() returns (c: Buffer)
      ensures fresh(c) && c.data == data
    {
      c := new Buffer();
      c.data := data;
    }
  }
}
