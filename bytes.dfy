/** Byte-level writers of the layered-document serializer: big-endian fields written into a
    zero-initialised byte buffer through an offset, and concatenation of byte buffers. */
module Bytes {
  import opened Seqs

  /** One element of a Uint8Array. */
  type byte = b: int | 0 <= b < 256

  const TWO_16: int := 0x1_0000
  const TWO_32: int := 0x1_0000_0000

  /** Reads a big-endian unsigned 16-bit field. */
  function ReadBE16(s: seq<byte>, at: nat): (v: nat)
    requires at + 2 <= |s|
    ensures v < TWO_16
  {
    (s[at] as int) * 256 + s[at + 1]
  }

  /** Reads a big-endian signed (two's complement) 16-bit field. */
  function ReadInt16(s: seq<byte>, at: nat): (v: int)
    requires at + 2 <= |s|
    ensures -0x8000 <= v < 0x8000
  {
    var u := ReadBE16(s, at);
    if u >= 0x8000 then u - TWO_16 else u
  }

  /** Reads a big-endian unsigned 32-bit field. */
  function ReadBE32(s: seq<byte>, at: nat): (v: nat)
    requires at + 4 <= |s|
    ensures v < TWO_32
  {
    (s[at] as int) * 0x100_0000 + (s[at + 1] as int) * 0x1_0000 + (s[at + 2] as int) * 0x100 + s[at + 3]
  }

  lemma Split32(v: int)
    requires 0 <= v < TWO_32
    ensures v == (v / 0x100_0000) * 0x100_0000 + ((v / 0x1_0000) % 256) * 0x1_0000
                 + ((v / 0x100) % 256) * 0x100 + v % 256
  {
    var a := v / 0x100;
    var b := a / 0x100;
    var c := b / 0x100;
    assert v == a * 0x100 + v % 256;
    assert a == b * 0x100 + a % 256;
    assert b == c * 0x100 + b % 256;
    assert b == v / 0x1_0000;
    assert c == v / 0x100_0000;
  }

  /** Reading a field inside a part of a buffer reads it in the buffer at the part's offset. */
  lemma ReadBE32Shift(s: seq<byte>, off: nat, g: seq<byte>, at: nat)
    requires off + |g| <= |s| && s[off..off + |g|] == g && at + 4 <= |g|
    ensures ReadBE32(s, off + at) == ReadBE32(g, at)
  {
    assert s[off + at] == g[at] && s[off + at + 1] == g[at + 1];
    assert s[off + at + 2] == g[at + 2] && s[off + at + 3] == g[at + 3];
  }

  lemma ReadBE16Shift(s: seq<byte>, off: nat, g: seq<byte>, at: nat)
    requires off + |g| <= |s| && s[off..off + |g|] == g && at + 2 <= |g|
    ensures ReadBE16(s, off + at) == ReadBE16(g, at)
    ensures ReadInt16(s, off + at) == ReadInt16(g, at)
  {
    assert s[off + at] == g[at] && s[off + at + 1] == g[at + 1];
  }

  /** The four bytes `writeUint32` (and DataView.setUint32/setInt32) store for `value`:
      the value taken modulo 2^32, most significant byte first. */
  function BE32(value: int): (r: seq<byte>)
    ensures |r| == 4
    ensures ReadBE32(r, 0) == value % TWO_32
  {
    var v := value % TWO_32;
    Split32(v);
    [v / 0x100_0000, (v / 0x1_0000) % 256, (v / 0x100) % 256, v % 256]
  }

  /** The two bytes DataView.setUint16 stores: the value modulo 2^16, high byte first. */
  function BE16(value: int): (r: seq<byte>)
    ensures |r| == 2
    ensures ReadBE16(r, 0) == value % TWO_16
  {
    var v := value % TWO_16;
    [v / 256, v % 256]
  }

  /** The two bytes `writeInt16` (and DataView.setInt16) store: a negative value is first
      biased by 0x10000, then the unsigned shift and mask keep the low 16 bits. */
  function Int16Bytes(value: int): (r: seq<byte>)
    ensures r == BE16(value)
    ensures -0x8000 <= value < 0x8000 ==> ReadInt16(r, 0) == value
  {
    var v := if value < 0 then 0xffff + value + 1 else value;
    Low16(v, value);
    [((v % TWO_32) / 256) % 256, v % 256]
  }

  /** The unsigned shift and the two masks of `writeInt16` keep exactly the low 16 bits. */
  lemma Low16(v: int, value: int)
    requires v == value || v == value + TWO_16
    ensures ((v % TWO_32) / 256) % 256 == (value % TWO_16) / 256
    ensures v % 256 == (value % TWO_16) % 256
  {
    assert v % TWO_16 == value % TWO_16;
    Mod32Mod16(v);
    HighByte(v % TWO_32);
    Mod16Mod8(v);
  }

  lemma Mod32Mod16(v: int)
    ensures (v % 0x1_0000_0000) % 0x1_0000 == v % 0x1_0000
  {
    var q := v / 0x1_0000_0000;
    var u := v % 0x1_0000_0000;
    var a := u / 0x1_0000;
    var r := u % 0x1_0000;
    assert v == (q * 0x1_0000 + a) * 0x1_0000 + r;
    Mod16Unique(v, q * 0x1_0000 + a, r);
  }

  /** Euclidean division by 2^16 has one remainder. */
  lemma Mod16Unique(x: int, t: int, r: int)
    requires x == t * 0x1_0000 + r && 0 <= r < 0x1_0000
    ensures x % 0x1_0000 == r
  {
  }

  lemma HighByte(u: int)
    requires 0 <= u
    ensures (u / 256) % 256 == (u % 0x1_0000) / 256
  {
    var a := u / 0x1_0000;
    var b := u % 0x1_0000;
    assert u == (a * 256) * 256 + b;
  }

  lemma Mod16Mod8(v: int)
    ensures v % 256 == (v % 0x1_0000) % 256
  {
    var a := v / 0x1_0000;
    var b := v % 0x1_0000;
    assert v == (a * 256) * 256 + b;
  }

  /** `writeUint32(buffer, offset, value)`: the four bytes at `offset` become BE32(value),
      every other byte of the buffer is unchanged. */
  method WriteUint32(buffer: array<byte>, offset: nat, value: int)
    requires offset + 4 <= buffer.Length
    modifies buffer
    ensures buffer[..] == old(buffer[..])[..offset] + BE32(value) + old(buffer[..])[offset + 4..]
  {
    var v := value % TWO_32;
    buffer[offset] := v / 0x100_0000;
    buffer[offset + 1] := (v / 0x1_0000) % 256;
    buffer[offset + 2] := (v / 0x100) % 256;
    buffer[offset + 3] := v % 256;
  }

  /** `writeInt16(buffer, offset, value)`: the two bytes at `offset` become Int16Bytes(value). */
  method WriteInt16(buffer: array<byte>, offset: nat, value: int)
    requires offset + 2 <= buffer.Length
    modifies buffer
    ensures buffer[..] == old(buffer[..])[..offset] + Int16Bytes(value) + old(buffer[..])[offset + 2..]
  {
    var v := if value < 0 then 0xffff + value + 1 else value;
    buffer[offset] := ((v % TWO_32) / 256) % 256;
    buffer[offset + 1] := v % 256;
  }

  /** DataView.setUint16(offset, value): the two bytes at `offset` become BE16(value). */
  method WriteUint16(buffer: array<byte>, offset: nat, value: int)
    requires offset + 2 <= buffer.Length
    modifies buffer
    ensures buffer[..] == old(buffer[..])[..offset] + BE16(value) + old(buffer[..])[offset + 2..]
  {
    var v := value % TWO_16;
    buffer[offset] := v / 256;
    buffer[offset + 1] := v % 256;
  }

  /** n zero bytes: a freshly allocated Uint8Array. */
  function Zeros(n: nat): (z: seq<byte>)
    ensures |z| == n && forall k :: 0 <= k < n ==> z[k] == 0
  {
    seq(n, _ => 0)
  }

  /** A buffer whose first |prefix| bytes are `prefix` and whose remaining bytes are still zero:
      the state of a zero-initialised Uint8Array after writing `prefix` through an offset cursor. */
  ghost predicate Filled(buffer: seq<byte>, prefix: seq<byte>)
  {
    |prefix| <= |buffer| && buffer[..|prefix|] == prefix &&
    forall k :: |prefix| <= k < |buffer| ==> buffer[k] == 0
  }

  /** Writing `piece` at the cursor of a filled buffer extends what has been written by `piece`. */
  lemma FilledAfterWrite(before: seq<byte>, after: seq<byte>, prefix: seq<byte>, piece: seq<byte>)
    requires Filled(before, prefix)
    requires |prefix| + |piece| <= |before|
    requires after == before[..|prefix|] + piece + before[|prefix| + |piece|..]
    ensures Filled(after, prefix + piece)
  {
  }

  /** Skipping bytes at the cursor (they stay zero) is the same as writing zeros there. */
  lemma FilledSkip(buffer: seq<byte>, prefix: seq<byte>, zeros: seq<byte>)
    requires Filled(buffer, prefix)
    requires |prefix| + |zeros| <= |buffer|
    requires forall k :: 0 <= k < |zeros| ==> zeros[k] == 0
    ensures Filled(buffer, prefix + zeros)
  {
  }

  /** A zero-initialised buffer has nothing written yet. */
  lemma FilledFresh(buffer: seq<byte>)
    requires forall k :: 0 <= k < |buffer| ==> buffer[k] == 0
    ensures Filled(buffer, [])
  {
  }

  /** A buffer filled up to its end is exactly what was written. */
  lemma FilledFull(buffer: seq<byte>, prefix: seq<byte>)
    requires Filled(buffer, prefix) && |prefix| == |buffer|
    ensures buffer == prefix
  {
  }

  /** Uint8Array.prototype.set(src, offset): copies `src` into the buffer at `offset`. */
  method CopyInto(buffer: array<byte>, src: seq<byte>, offset: nat)
    requires offset + |src| <= buffer.Length
    modifies buffer
    ensures buffer[..] == old(buffer[..])[..offset] + src + old(buffer[..])[offset + |src|..]
  {
    for j := 0 to |src|
      invariant forall k :: 0 <= k < buffer.Length ==>
        buffer[k] == if offset <= k < offset + j then src[k - offset] else old(buffer[k])
    {
      buffer[offset + j] := src[j];
    }
    assert buffer[..] == old(buffer[..])[..offset] + src + old(buffer[..])[offset + |src|..];
  }

  // Writes at the cursor of a buffer that is filled up to the cursor. Each one is the writer
  // above followed by the bookkeeping that what has been written grew by the written bytes.

  method PutUint32(buffer: array<byte>, offset: nat, value: int, ghost written: seq<byte>)
    requires offset == |written| && offset + 4 <= buffer.Length && Filled(buffer[..], written)
    modifies buffer
    ensures Filled(buffer[..], written + BE32(value))
  {
    ghost var before := buffer[..];
    WriteUint32(buffer, offset, value);
    FilledAfterWrite(before, buffer[..], written, BE32(value));
  }

  method PutUint16(buffer: array<byte>, offset: nat, value: int, ghost written: seq<byte>)
    requires offset == |written| && offset + 2 <= buffer.Length && Filled(buffer[..], written)
    modifies buffer
    ensures Filled(buffer[..], written + BE16(value))
  {
    ghost var before := buffer[..];
    WriteUint16(buffer, offset, value);
    FilledAfterWrite(before, buffer[..], written, BE16(value));
  }

  method PutInt16(buffer: array<byte>, offset: nat, value: int, ghost written: seq<byte>)
    requires offset == |written| && offset + 2 <= buffer.Length && Filled(buffer[..], written)
    modifies buffer
    ensures Filled(buffer[..], written + Int16Bytes(value))
  {
    ghost var before := buffer[..];
    WriteInt16(buffer, offset, value);
    FilledAfterWrite(before, buffer[..], written, Int16Bytes(value));
  }

  method PutBytes(buffer: array<byte>, offset: nat, src: seq<byte>, ghost written: seq<byte>)
    requires offset == |written| && offset + |src| <= buffer.Length && Filled(buffer[..], written)
    modifies buffer
    ensures Filled(buffer[..], written + src)
  {
    ghost var before := buffer[..];
    CopyInto(buffer, src, offset);
    FilledAfterWrite(before, buffer[..], written, src);
  }

  method PutByte(buffer: array<byte>, offset: nat, value: byte, ghost written: seq<byte>)
    requires offset == |written| && offset + 1 <= buffer.Length && Filled(buffer[..], written)
    modifies buffer
    ensures Filled(buffer[..], written + [value])
  {
    ghost var before := buffer[..];
    buffer[offset] := value;
    assert buffer[..] == before[..offset] + [value] + before[offset + 1..];
    FilledAfterWrite(before, buffer[..], written, [value]);
  }

  /** `concatUint8Arrays(arrays)`: sums the lengths, allocates a zeroed buffer of that size and
      copies each array in after the previous one. */
  method ConcatBytes(arrays: seq<seq<byte>>) returns (result: seq<byte>)
    ensures result == Flatten(arrays)
    ensures |result| == TotalLength(arrays)
  {
    FlattenLength(arrays);
    if |arrays| == 0 {
      return [];
    }
    var total := 0;
    for i := 0 to |arrays|
      invariant total == TotalLength(arrays[..i])
    {
      assert arrays[..i + 1][..i] == arrays[..i];
      total := total + |arrays[i]|;
    }
    assert arrays[..|arrays|] == arrays;
    var buffer := new byte[total](_ => 0);
    var offset := 0;
    for i := 0 to |arrays|
      invariant offset == |Flatten(arrays[..i])|
      invariant offset <= total
      invariant buffer[..offset] == Flatten(arrays[..i])
    {
      FlattenSnoc(arrays, i);
      FlattenSplit(arrays, i + 1);
      ghost var before := buffer[..];
      CopyInto(buffer, arrays[i], offset);
      assert buffer[..offset + |arrays[i]|] == before[..offset] + arrays[i];
      offset := offset + |arrays[i]|;
    }
    result := buffer[..];
    assert buffer[..] == buffer[..offset];
  }
}
