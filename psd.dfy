/** The layered-document (PSD) serializer: the File Header section, the empty Color Mode Data and
    Image Resources sections, the Layer and Mask Information section and the Image Data section of
    the Adobe Photoshop File Formats Specification, as written by the export path of the editor.
    All multi-byte fields are big-endian. */
module Psd {
  import opened Seqs
  import opened Bytes

  const HEADER_LENGTH: nat := 26
  /** "8BPS" */
  const Signature: seq<byte> := [0x38, 0x42, 0x50, 0x53]
  /** "8BIM" */
  const BlendSignature: seq<byte> := [0x38, 0x42, 0x49, 0x4D]
  /** "norm" */
  const NormalBlendKey: seq<byte> := [0x6E, 0x6F, 0x72, 0x6D]
  /** Channel ids of the four planes: red, green, blue, and -1 for transparency. */
  const ChannelIds: seq<int> := [0, 1, 2, -1]

  function Min(a: int, b: int): int { if a <= b then a else b }

  // ---------------------------------------------------------------------------------------------
  // File Header section

  /** The 26 header bytes: signature, version 1, six reserved zero bytes, 4 channels, height,
      width, 8 bits per channel, colour mode 3 (RGB). */
  function HeaderBytes(width: int, height: int): seq<byte>
  {
    Signature + BE16(1) + [0, 0, 0, 0, 0, 0] + BE16(4) + BE32(height) + BE32(width) + BE16(8) + BE16(3)
  }

  /** `createPsdHeader`: fills a 26-byte buffer through a DataView. */
  method CreatePsdHeader(width: int, height: int) returns (header: seq<byte>)
    ensures header == HeaderBytes(width, height)
  {
    var buffer := new byte[26](_ => 0);
    FilledFresh(buffer[..]);
    PutUint32(buffer, 0, 0x38425053, []);
    PutUint16(buffer, 4, 1, Signature);
    ghost var done := Signature + BE16(1);
    for i := 6 to 12
      invariant Filled(buffer[..], done + Zeros(i - 6))
    {
      assert done + Zeros(i + 1 - 6) == done + Zeros(i - 6) + [0];
      PutByte(buffer, i, 0, done + Zeros(i - 6));
    }
    done := done + Zeros(6);
    assert Zeros(6) == [0, 0, 0, 0, 0, 0];
    PutUint16(buffer, 12, 4, done);
    done := done + BE16(4);
    PutUint32(buffer, 14, height, done);
    done := done + BE32(height);
    PutUint32(buffer, 18, width, done);
    done := done + BE32(width);
    PutUint16(buffer, 22, 8, done);
    done := done + BE16(8);
    PutUint16(buffer, 24, 3, done);
    done := done + BE16(3);
    header := buffer[..];
    FilledFull(header, done);
  }

  lemma HeaderLayout(width: int, height: int)
    ensures var h := HeaderBytes(width, height);
      |h| == HEADER_LENGTH && h[..4] == Signature &&
      ReadBE16(h, 4) == 1 && (forall i :: 6 <= i < 12 ==> h[i] == 0) &&
      ReadBE16(h, 12) == 4 && ReadBE32(h, 14) == height % TWO_32 &&
      ReadBE32(h, 18) == width % TWO_32 && ReadBE16(h, 22) == 8 && ReadBE16(h, 24) == 3
  {
    var h := HeaderBytes(width, height);
    assert h[14..18] == BE32(height);
    assert h[18..22] == BE32(width);
    assert h[12..14] == BE16(4);
    assert h[22..24] == BE16(8);
    assert h[24..26] == BE16(3);
    assert h[4..6] == BE16(1);
  }

  // ---------------------------------------------------------------------------------------------
  // Layer names

  /** UTF-8 encoding of one Unicode scalar value (what TextEncoder produces for it). */
  function Utf8Char(c: char): (r: seq<byte>)
    ensures 1 <= |r| <= 4
    ensures (c as int) < 0x80 <==> |r| == 1
    ensures (c as int) < 0x80 ==> r == [c as int]
    ensures |r| > 1 ==> 0xC0 <= r[0] && forall i :: 1 <= i < |r| ==> 0x80 <= r[i] < 0xC0
  {
    var cp := c as int;
    if cp < 0x80 then [cp]
    else if cp < 0x800 then [0xC0 + cp / 0x40, 0x80 + cp % 0x40]
    else if cp < 0x1_0000 then [0xE0 + cp / 0x1000, 0x80 + (cp / 0x40) % 0x40, 0x80 + cp % 0x40]
    else [0xF0 + cp / 0x4_0000, 0x80 + (cp / 0x1000) % 0x40, 0x80 + (cp / 0x40) % 0x40, 0x80 + cp % 0x40]
  }

  /** `new TextEncoder().encode(name)`. */
  function Utf8(s: string): (r: seq<byte>)
    ensures |s| <= |r| <= 4 * |s|
    decreases |s|
  {
    if s == [] then [] else Utf8Char(s[0]) + Utf8(s[1..])
  }

  /** How many bytes the sequence that starts with lead byte `lead` has. */
  function SequenceLength(lead: byte): nat
  {
    if lead < 0x80 then 1 else if lead < 0xE0 then 2 else if lead < 0xF0 then 3 else 4
  }

  /** The payload bits of a continuation byte. */
  function Low6(b: byte): int
  {
    b as int - 0x80
  }

  /** The scalar value a 1- to 4-byte sequence encodes. */
  function DecodeScalar(b: seq<byte>): int
    requires 1 <= |b| <= 4
  {
    var lead := b[0] as int;
    if |b| == 1 then lead
    else if |b| == 2 then (lead - 0xC0) * 0x40 + Low6(b[1])
    else if |b| == 3 then (lead - 0xE0) * 0x1000 + Low6(b[1]) * 0x40 + Low6(b[2])
    else (lead - 0xF0) * 0x4_0000 + Low6(b[1]) * 0x1000 + Low6(b[2]) * 0x40 + Low6(b[3])
  }

  /** A UTF-8 decoder: one scalar value per sequence, each as long as its lead byte says;
      decoding stops at a truncated sequence. */
  function Utf8Decode(bytes: seq<byte>): seq<int>
    decreases |bytes|
  {
    if bytes == [] then []
    else
      var n := SequenceLength(bytes[0]);
      if |bytes| < n then [] else [DecodeScalar(bytes[..n])] + Utf8Decode(bytes[n..])
  }

  /** The scalar values of a string. */
  function CodePoints(s: string): (r: seq<int>)
    ensures |r| == |s|
  {
    seq(|s|, i requires 0 <= i < |s| => s[i] as int)
  }

  /** The encoding of one character announces its own length in its lead byte and decodes to
      the character's scalar value. */
  lemma Utf8CharDecodes(c: char)
    ensures SequenceLength(Utf8Char(c)[0]) == |Utf8Char(c)|
    ensures DecodeScalar(Utf8Char(c)) == c as int
  {
    var cp := c as int;
    var r := Utf8Char(c);
    if cp < 0x80 {
    } else if cp < 0x800 {
      assert r[0] as int - 0xC0 == cp / 0x40;
      assert Low6(r[1]) == cp % 0x40;
    } else if cp < 0x1_0000 {
      assert r[0] as int - 0xE0 == cp / 0x1000;
      assert Low6(r[1]) == (cp / 0x40) % 0x40;
      assert Low6(r[2]) == cp % 0x40;
      SixBitDigits(cp);
    } else {
      assert r[0] as int - 0xF0 == cp / 0x4_0000;
      assert Low6(r[1]) == (cp / 0x1000) % 0x40;
      assert Low6(r[2]) == (cp / 0x40) % 0x40;
      assert Low6(r[3]) == cp % 0x40;
      SixBitDigits(cp);
    }
  }

  /** A scalar value split into its 6-bit groups. */
  lemma SixBitDigits(cp: int)
    requires 0 <= cp
    ensures (cp / 0x1000) * 0x1000 + ((cp / 0x40) % 0x40) * 0x40 + cp % 0x40 == cp
    ensures (cp / 0x4_0000) * 0x4_0000 + ((cp / 0x1000) % 0x40) * 0x1000 + ((cp / 0x40) % 0x40) * 0x40
            + cp % 0x40 == cp
  {
    var q1, r1 := cp / 0x40, cp % 0x40;
    var q2, r2 := q1 / 0x40, q1 % 0x40;
    var q3, r3 := q2 / 0x40, q2 % 0x40;
    assert cp == q2 * 0x1000 + (r2 * 0x40 + r1);
    assert cp / 0x1000 == q2;
    assert cp == q3 * 0x4_0000 + (r3 * 0x1000 + r2 * 0x40 + r1);
    assert cp / 0x4_0000 == q3;
    assert (cp / 0x1000) % 0x40 == r3;
  }

  /** Decoding the encoded name gives back its characters, in order. */
  lemma {:induction false} Utf8RoundTrip(s: string)
    ensures Utf8Decode(Utf8(s)) == CodePoints(s)
    decreases |s|
  {
    if s != [] {
      var e := Utf8Char(s[0]);
      var rest := Utf8(s[1..]);
      Utf8CharDecodes(s[0]);
      Utf8RoundTrip(s[1..]);
      assert Utf8(s) == e + rest;
      assert (e + rest)[..|e|] == e && (e + rest)[|e|..] == rest;
      assert CodePoints(s) == [s[0] as int] + CodePoints(s[1..]);
    }
  }

  /** Different names have different encodings. */
  lemma Utf8Injective(s: string, t: string)
    requires Utf8(s) == Utf8(t)
    ensures s == t
  {
    Utf8RoundTrip(s);
    Utf8RoundTrip(t);
    assert CodePoints(s) == CodePoints(t);
    assert forall i :: 0 <= i < |s| ==> CodePoints(s)[i] == s[i] as int;
  }

  /** `pascalString`: a length byte min(255, |encoded|), the first that many bytes of the name,
      zero-padded so that the whole string is a multiple of 4 bytes long. */
  function PascalString(encoded: seq<byte>): (r: seq<byte>)
    ensures Min(255, |encoded|) + 1 <= |r| <= Min(255, |encoded|) + 4
    ensures |r| % 4 == 0
    ensures r[0] == Min(255, |encoded|)
    ensures r[1..1 + r[0]] == encoded[..r[0]]
    ensures forall i :: 1 + r[0] <= i < |r| ==> r[i] == 0
  {
    var length := Min(255, |encoded|);
    var paddedLength := length + 1 + (4 - (length + 1) % 4) % 4;
    [length] + encoded[..length] + seq(paddedLength - 1 - length, _ => 0)
  }

  // ---------------------------------------------------------------------------------------------
  // Planar channels

  /** An RGBA raster as getImageData returns it: 4 bytes per pixel, row-major. */
  datatype Raster = Raster(width: nat, height: nat, rgba: seq<byte>)
  {
    predicate WellFormed() { |rgba| == 4 * (width * height) }
  }

  /** Plane k of an interleaved RGBA buffer of n pixels: byte k of every pixel. */
  function Plane(rgba: seq<byte>, k: nat, n: nat): (p: seq<byte>)
    requires k < 4 && |rgba| == 4 * n
    ensures |p| == n
  {
    seq(n, i requires 0 <= i < n => rgba[4 * i + k])
  }

  /** The four planes of an interleaved buffer. */
  function Planes(rgba: seq<byte>, n: nat): (ps: seq<seq<byte>>)
    requires |rgba| == 4 * n
    ensures |ps| == 4 && forall k :: 0 <= k < 4 ==> |ps[k]| == n
  {
    [Plane(rgba, 0, n), Plane(rgba, 1, n), Plane(rgba, 2, n), Plane(rgba, 3, n)]
  }

  /** Re-interleaves four planes of n bytes into RGBA pixels. */
  function Interleave(planes: seq<seq<byte>>, n: nat): (rgba: seq<byte>)
    requires |planes| == 4 && forall k :: 0 <= k < 4 ==> |planes[k]| == n
    ensures |rgba| == 4 * n
  {
    seq(4 * n, j requires 0 <= j < 4 * n => planes[j % 4][j / 4])
  }

  /** Splitting into planes and re-interleaving gives back the raster. */
  lemma InterleavePlanes(rgba: seq<byte>, n: nat)
    requires |rgba| == 4 * n
    ensures Interleave(Planes(rgba, n), n) == rgba
  {
    var r := Interleave(Planes(rgba, n), n);
    forall j | 0 <= j < 4 * n
      ensures r[j] == rgba[j]
    {
      assert 4 * (j / 4) + j % 4 == j;
    }
  }

  /** Interleaving four planes and splitting again gives back the planes. */
  lemma PlanesInterleave(planes: seq<seq<byte>>, n: nat)
    requires |planes| == 4 && forall k :: 0 <= k < 4 ==> |planes[k]| == n
    ensures Planes(Interleave(planes, n), n) == planes
  {
    var rgba := Interleave(planes, n);
    forall k, i | 0 <= k < 4 && 0 <= i < n
      ensures Plane(rgba, k, n)[i] == planes[k][i]
    {
      assert (4 * i + k) % 4 == k && (4 * i + k) / 4 == i;
    }
    assert forall k :: 0 <= k < 4 ==> Plane(rgba, k, n) == planes[k];
  }

  /** `canvasToChannels`: splits the canvas pixels into four planes in one pass. */
  method CanvasToChannels(raster: Raster) returns (channels: seq<seq<byte>>)
    requires raster.WellFormed()
    ensures channels == Planes(raster.rgba, raster.width * raster.height)
    ensures forall k, i :: 0 <= k < 4 && 0 <= i < raster.width * raster.height ==>
      channels[k][i] == raster.rgba[4 * i + k]
  {
    var n := raster.width * raster.height;
    var data := raster.rgba;
    var c0 := new byte[n](_ => 0);
    var c1 := new byte[n](_ => 0);
    var c2 := new byte[n](_ => 0);
    var c3 := new byte[n](_ => 0);
    for i := 0 to n
      invariant forall j :: 0 <= j < i ==>
        c0[j] == data[4 * j] && c1[j] == data[4 * j + 1] && c2[j] == data[4 * j + 2] && c3[j] == data[4 * j + 3]
    {
      c0[i] := data[i * 4];
      c1[i] := data[i * 4 + 1];
      c2[i] := data[i * 4 + 2];
      c3[i] := data[i * 4 + 3];
    }
    channels := [c0[..], c1[..], c2[..], c3[..]];
    assert c0[..] == Plane(data, 0, n) && c1[..] == Plane(data, 1, n);
    assert c2[..] == Plane(data, 2, n) && c3[..] == Plane(data, 3, n);
  }

  // ---------------------------------------------------------------------------------------------
  // Image Data section

  /** The composite block: compression 0 (raw), then the R, G, B and A planes one after another. */
  function CompositeBytes(rgba: seq<byte>, n: nat): seq<byte>
    requires |rgba| == 4 * n
  {
    BE16(0) + Flatten(Planes(rgba, n))
  }

  /** `encodeCompositeImage`: a 2-byte raw-compression header followed by the planar pixels. */
  method EncodeCompositeImage(image: Raster) returns (out: seq<byte>)
    requires image.WellFormed()
    ensures out == CompositeBytes(image.rgba, image.width * image.height)
  {
    var header := new byte[2](_ => 0);
    WriteUint16(header, 0, 0);
    var pixelData := PlanarPixels(image.rgba, image.width * image.height);
    out := ConcatBytes([header[..], pixelData]);
    FlattenPair(header[..], pixelData);
  }

  /** The pixel loop of `encodeCompositeImage` over a channel size of n = width * height pixels:
      byte k of pixel i goes to k*n + i of a zero-initialised buffer of 4n bytes. */
  method PlanarPixels(data: seq<byte>, channelSize: nat) returns (pixels: seq<byte>)
    requires |data| == 4 * channelSize
    ensures pixels == Flatten(Planes(data, channelSize))
  {
    var pixelData := new byte[channelSize * 4](_ => 0);
    for i := 0 to channelSize
      invariant pixelData[..] == PlanarPrefix(data, channelSize, i)
    {
      WritePixel(pixelData, data, channelSize, i);
    }
    pixels := pixelData[..];
    PlanarPrefixComplete(data, channelSize);
  }

  /** One iteration of the pixel loop: the four bytes of pixel i go to their four planes. */
  method WritePixel(pixelData: array<byte>, data: seq<byte>, n: nat, i: nat)
    requires |data| == 4 * n && i < n && pixelData.Length == 4 * n
    requires pixelData[..] == PlanarPrefix(data, n, i)
    modifies pixelData
    ensures pixelData[..] == PlanarPrefix(data, n, i + 1)
  {
    ghost var s := pixelData[..];
    pixelData[i] := data[4 * i];
    assert pixelData[..] == s[i := data[4 * i]];
    s := pixelData[..];
    pixelData[n + i] := data[4 * i + 1];
    assert pixelData[..] == s[n + i := data[4 * i + 1]];
    s := pixelData[..];
    pixelData[2 * n + i] := data[4 * i + 2];
    assert pixelData[..] == s[2 * n + i := data[4 * i + 2]];
    s := pixelData[..];
    pixelData[3 * n + i] := data[4 * i + 3];
    assert pixelData[..] == s[3 * n + i := data[4 * i + 3]];
  }

  /** The pixel buffer after the first i iterations of the pixel loop. */
  ghost function PlanarPrefix(data: seq<byte>, n: nat, i: nat): (r: seq<byte>)
    requires |data| == 4 * n && i <= n
    ensures |r| == 4 * n
  {
    if i == 0 then seq(4 * n, _ => 0)
    else PlanarPrefix(data, n, i - 1)[i - 1 := data[4 * (i - 1)]][n + i - 1 := data[4 * (i - 1) + 1]]
      [2 * n + i - 1 := data[4 * (i - 1) + 2]][3 * n + i - 1 := data[4 * (i - 1) + 3]]
  }

  /** After i iterations, plane k holds byte k of the first i pixels and zeros after them. */
  lemma {:induction false} PlanarPrefixAt(data: seq<byte>, n: nat, i: nat, k: nat, j: nat)
    requires |data| == 4 * n && i <= n && k < 4 && j < n
    ensures PlanarPrefix(data, n, i)[k * n + j] == if j < i then data[4 * j + k] else 0
  {
    if i > 0 {
      PlanarPrefixAt(data, n, i - 1, k, j);
      assert k * n + j == (if k == 0 then j else if k == 1 then n + j else if k == 2 then 2 * n + j else 3 * n + j);
    }
  }

  /** When the loop ends the buffer is the four planes one after another. */
  lemma PlanarPrefixComplete(data: seq<byte>, n: nat)
    requires |data| == 4 * n
    ensures PlanarPrefix(data, n, n) == Flatten(Planes(data, n))
  {
    var ps := Planes(data, n);
    var pixels := PlanarPrefix(data, n, n);
    FlattenFour(ps[0], ps[1], ps[2], ps[3]);
    assert ps == [ps[0], ps[1], ps[2], ps[3]];
    forall j | 0 <= j < n
      ensures pixels[j] == ps[0][j] && pixels[n + j] == ps[1][j]
      ensures pixels[2 * n + j] == ps[2][j] && pixels[3 * n + j] == ps[3][j]
    {
      PlanarPrefixAt(data, n, n, 0, j);
      PlanarPrefixAt(data, n, n, 1, j);
      PlanarPrefixAt(data, n, n, 2, j);
      PlanarPrefixAt(data, n, n, 3, j);
    }
    assert pixels[..n] == ps[0];
    assert pixels[n..2 * n] == ps[1];
    assert pixels[2 * n..3 * n] == ps[2];
    assert pixels[3 * n..] == ps[3];
    assert pixels == pixels[..n] + pixels[n..2 * n] + pixels[2 * n..3 * n] + pixels[3 * n..];
  }

  /** Layout of the composite block: compression 0, then byte k of pixel i at 2 + k*n + i. */
  lemma CompositeLayout(rgba: seq<byte>, n: nat)
    requires |rgba| == 4 * n
    ensures var out := CompositeBytes(rgba, n);
      |out| == 2 + 4 * n && ReadBE16(out, 0) == 0 &&
      forall i :: 0 <= i < n ==>
        out[2 + i] == rgba[4 * i] && out[2 + n + i] == rgba[4 * i + 1] &&
        out[2 + 2 * n + i] == rgba[4 * i + 2] && out[2 + 3 * n + i] == rgba[4 * i + 3]
  {
    var ps := Planes(rgba, n);
    FlattenFour(ps[0], ps[1], ps[2], ps[3]);
    assert ps == [ps[0], ps[1], ps[2], ps[3]];
  }

  // ---------------------------------------------------------------------------------------------
  // Layer records

  /** One entry of `channelEntries`: a channel id and its plane. */
  datatype ChannelEntry = ChannelEntry(id: int, data: seq<byte>)

  /** What `buildRasterLayer` returns: the layer record and one block of channel image data per
      channel. */
  datatype Layer = Layer(record: seq<byte>, channelData: seq<seq<byte>>)

  /** The channel entries of a raster: ids 0, 1, 2, -1 paired with the R, G, B and A planes. */
  function ChannelEntries(rgba: seq<byte>, n: nat): (es: seq<ChannelEntry>)
    requires |rgba| == 4 * n
    ensures |es| == 4
    ensures forall k :: 0 <= k < 4 ==> es[k].id == ChannelIds[k] && es[k].data == Planes(rgba, n)[k]
  {
    var ps := Planes(rgba, n);
    [ChannelEntry(0, ps[0]), ChannelEntry(1, ps[1]), ChannelEntry(2, ps[2]), ChannelEntry(-1, ps[3])]
  }

  /** The channel information of a layer record: per channel its id (2 bytes) and the length of
      its image data, which is the plane plus the 2-byte compression field (4 bytes). */
  function ChannelInfo(entries: seq<ChannelEntry>): (r: seq<byte>)
    ensures |r| == 6 * |entries|
    decreases |entries|
  {
    if entries == [] then []
    else
      var last := entries[|entries| - 1];
      ChannelInfo(entries[..|entries| - 1]) + BE16(last.id) + BE32(|last.data| + 2)
  }

  /** The bytes of a layer record: the bounds, the channel count and channel information, the
      blend fields, and the extra data. */
  function LayerRecordBytes(nameData: seq<byte>, width: int, height: int, entries: seq<ChannelEntry>): seq<byte>
  {
    BoundsBytes(width, height) + BE16(|entries|) + ChannelInfo(entries) + BlendBytes() + ExtraBytes(nameData)
  }

  /** The bounds of a layer record: top 0, left 0, bottom = height, right = width. */
  function BoundsBytes(width: int, height: int): (r: seq<byte>)
    ensures |r| == 16
  {
    BE32(0) + BE32(0) + BE32(height) + BE32(width)
  }

  /** The blend mode signature and key, opacity 255, clipping 0, flags 0 and a filler byte. */
  function BlendBytes(): (r: seq<byte>)
    ensures |r| == 12
  {
    BlendSignature + NormalBlendKey + [255, 0, 0, 0]
  }

  /** The extra data: its length, an empty layer mask, empty blending ranges and the name. */
  function ExtraBytes(nameData: seq<byte>): (r: seq<byte>)
    ensures |r| == 12 + |nameData|
  {
    BE32(4 + 0 + 4 + 0 + |nameData|) + BE32(0) + BE32(0) + nameData
  }

  /** The channel image data block of one channel: compression 0 (raw), then the plane. */
  function ChannelBlock(entry: ChannelEntry): (block: seq<byte>)
    ensures |block| == 2 + |entry.data| && ReadBE16(block, 0) == 0 && block[2..] == entry.data
  {
    [0, 0] + entry.data
  }

  /** The layer `buildRasterLayer(name, canvas)` produces for a canvas holding `raster`. */
  function RasterLayer(name: string, raster: Raster): Layer
    requires raster.WellFormed()
  {
    var entries := ChannelEntries(raster.rgba, raster.width * raster.height);
    Layer(LayerRecordBytes(PascalString(Utf8(name)), raster.width, raster.height, entries), Blocks(entries))
  }

  /** The channel image data blocks of the channels, in channel order. */
  function Blocks(entries: seq<ChannelEntry>): (bs: seq<seq<byte>>)
    ensures |bs| == |entries| && forall k :: 0 <= k < |entries| ==> bs[k] == ChannelBlock(entries[k])
  {
    seq(|entries|, k requires 0 <= k < |entries| => ChannelBlock(entries[k]))
  }

  lemma ChannelInfoSnoc(entries: seq<ChannelEntry>, k: nat)
    requires k < |entries|
    ensures ChannelInfo(entries[..k + 1]) ==
      ChannelInfo(entries[..k]) + BE16(entries[k].id) + BE32(|entries[k].data| + 2)
  {
    assert entries[..k + 1][..k] == entries[..k];
  }

  /** `buildRasterLayer`: splits the canvas into channels, pairs them with their ids, writes the
      record and wraps each plane in a channel data block. */
  method BuildRasterLayer(name: string, raster: Raster) returns (layer: Layer)
    requires raster.WellFormed()
    ensures layer == RasterLayer(name, raster)
  {
    var channels := CanvasToChannels(raster);
    var channelEntries := [ChannelEntry(0, channels[0]), ChannelEntry(1, channels[1]),
                           ChannelEntry(2, channels[2]), ChannelEntry(-1, channels[3])];
    assert channelEntries == ChannelEntries(raster.rgba, raster.width * raster.height);
    var nameData := PascalString(Utf8(name));
    var record := WriteLayerRecord(nameData, raster.width, raster.height, channelEntries);
    var channelData: seq<seq<byte>> := [];
    for k := 0 to |channelEntries|
      invariant |channelData| == k
      invariant forall j :: 0 <= j < k ==> channelData[j] == ChannelBlock(channelEntries[j])
    {
      var block := WriteChannelBlock(channelEntries[k]);
      channelData := channelData + [block];
    }
    layer := Layer(record, channelData);
  }

  /** One channel data block of `buildRasterLayer`: two zero bytes, then the channel's data. */
  method WriteChannelBlock(entry: ChannelEntry) returns (block: seq<byte>)
    ensures block == ChannelBlock(entry)
  {
    var data := new byte[2 + |entry.data|](_ => 0);
    data[0] := 0;
    data[1] := 0;
    CopyInto(data, entry.data, 2);
    block := data[..];
  }

  /** The `channelEntries.forEach` of `buildRasterLayer`: writes each channel's id and data
      length at the running offset. */
  method WriteChannelInfo(record: array<byte>, start: nat, channelEntries: seq<ChannelEntry>, ghost head: seq<byte>)
    requires start == |head| && start + 6 * |channelEntries| <= record.Length
    requires Filled(record[..], head)
    modifies record
    ensures Filled(record[..], head + ChannelInfo(channelEntries))
  {
    ghost var done := head;
    var offset := start;
    for k := 0 to |channelEntries|
      invariant offset == start + 6 * k == |done|
      invariant done == head + ChannelInfo(channelEntries[..k])
      invariant Filled(record[..], done)
    {
      ChannelInfoSnoc(channelEntries, k);
      var entry := channelEntries[k];
      PutInt16(record, offset, entry.id, done);
      done, offset := done + Int16Bytes(entry.id), offset + 2;
      PutUint32(record, offset, |entry.data| + 2, done);
      done, offset := done + BE32(|entry.data| + 2), offset + 4;
    }
    assert channelEntries[..|channelEntries|] == channelEntries;
  }

  /** The record-writing part of `buildRasterLayer`: a buffer of exactly the record's length,
      filled at a running offset. */
  method WriteLayerRecord(nameData: seq<byte>, width: int, height: int, channelEntries: seq<ChannelEntry>)
    returns (result: seq<byte>)
    ensures result == LayerRecordBytes(nameData, width, height, channelEntries)
  {
    var extraLength := 4 + 0 + 4 + 0 + |nameData|;
    var recordLength := 16 + 2 + |channelEntries| * 6 + 12 + 4 + extraLength;
    var record := new byte[recordLength](_ => 0);
    FilledFresh(record[..]);
    var offset := 0;
    WriteBounds(record, width, height);
    ghost var done := BoundsBytes(width, height);
    offset := offset + 16;
    PutUint16(record, offset, |channelEntries|, done);
    done, offset := done + BE16(|channelEntries|), offset + 2;
    WriteChannelInfo(record, offset, channelEntries, done);
    done, offset := done + ChannelInfo(channelEntries), offset + 6 * |channelEntries|;
    WriteBlend(record, offset, done);
    done, offset := done + BlendBytes(), offset + 12;
    WriteExtra(record, offset, nameData, done);
    done := done + ExtraBytes(nameData);
    result := record[..];
    FilledFull(result, done);
  }

  /** The four `setInt32` calls of the bounds at the start of the record. */
  method WriteBounds(record: array<byte>, width: int, height: int)
    requires 16 <= record.Length && Filled(record[..], [])
    modifies record
    ensures Filled(record[..], BoundsBytes(width, height))
  {
    PutUint32(record, 0, 0, []);
    assert [] + BE32(0) == BE32(0);
    ghost var done := BE32(0);
    PutUint32(record, 4, 0, done);
    done := done + BE32(0);
    PutUint32(record, 8, height, done);
    done := done + BE32(height);
    PutUint32(record, 12, width, done);
  }

  /** The blend signature, the blend key and the four single bytes after the channel information. */
  method WriteBlend(record: array<byte>, offset: nat, ghost head: seq<byte>)
    requires offset == |head| && offset + 12 <= record.Length && Filled(record[..], head)
    modifies record
    ensures Filled(record[..], head + BlendBytes())
  {
    PutBytes(record, offset, BlendSignature, head);
    PutBytes(record, offset + 4, NormalBlendKey, head + BlendSignature);
    ghost var done := head + BlendSignature + NormalBlendKey;
    PutByte(record, offset + 8, 255, done);
    PutByte(record, offset + 9, 0, done + [255]);
    PutByte(record, offset + 10, 0, done + [255] + [0]);
    PutByte(record, offset + 11, 0, done + [255] + [0] + [0]);
    assert done + [255] + [0] + [0] + [0] == head + BlendBytes();
  }

  /** The extra-data length, the two empty lengths and the Pascal-string name. */
  method WriteExtra(record: array<byte>, offset: nat, nameData: seq<byte>, ghost head: seq<byte>)
    requires offset == |head| && offset + 12 + |nameData| <= record.Length && Filled(record[..], head)
    modifies record
    ensures Filled(record[..], head + ExtraBytes(nameData))
  {
    var extraLength := 4 + 0 + 4 + 0 + |nameData|;
    PutUint32(record, offset, extraLength, head);
    PutUint32(record, offset + 4, 0, head + BE32(extraLength));
    PutUint32(record, offset + 8, 0, head + BE32(extraLength) + BE32(0));
    PutBytes(record, offset + 12, nameData, head + BE32(extraLength) + BE32(0) + BE32(0));
    assert head + BE32(extraLength) + BE32(0) + BE32(0) + nameData == head + ExtraBytes(nameData);
  }

  /** The six bytes of channel k inside the channel information: its id, then its data length. */
  lemma {:induction false} ChannelInfoAt(entries: seq<ChannelEntry>, k: nat)
    requires k < |entries|
    ensures ChannelInfo(entries)[6 * k..6 * k + 2] == BE16(entries[k].id)
    ensures ChannelInfo(entries)[6 * k + 2..6 * k + 6] == BE32(|entries[k].data| + 2)
    decreases |entries|
  {
    var init := entries[..|entries| - 1];
    var last := entries[|entries| - 1];
    var info := ChannelInfo(entries);
    var head := ChannelInfo(init);
    assert info == head + BE16(last.id) + BE32(|last.data| + 2);
    Concat3(head, BE16(last.id), BE32(|last.data| + 2));
    if k < |init| {
      ChannelInfoAt(init, k);
      assert init[k] == entries[k];
      SliceShift(info, 0, head, 6 * k, 6 * k + 2);
      SliceShift(info, 0, head, 6 * k + 2, 6 * k + 6);
    }
  }

  /** Where a reader finds each field of the bounds. */
  lemma BoundsLayout(width: int, height: int)
    ensures var b := BoundsBytes(width, height);
      ReadBE32(b, 0) == 0 && ReadBE32(b, 4) == 0 &&
      ReadBE32(b, 8) == height % TWO_32 && ReadBE32(b, 12) == width % TWO_32
  {
    var b := BoundsBytes(width, height);
    Concat4(BE32(0), BE32(0), BE32(height), BE32(width));
    ReadBE32Shift(b, 0, BE32(0), 0);
    ReadBE32Shift(b, 4, BE32(0), 0);
    ReadBE32Shift(b, 8, BE32(height), 0);
    ReadBE32Shift(b, 12, BE32(width), 0);
  }

  /** Where a reader finds each field of the extra data. */
  lemma ExtraLayout(nameData: seq<byte>)
    ensures var e := ExtraBytes(nameData);
      ReadBE32(e, 0) == (8 + |nameData|) % TWO_32 && ReadBE32(e, 4) == 0 && ReadBE32(e, 8) == 0 &&
      e[12..] == nameData
  {
    var e := ExtraBytes(nameData);
    Concat4(BE32(8 + |nameData|), BE32(0), BE32(0), nameData);
    ReadBE32Shift(e, 0, BE32(8 + |nameData|), 0);
    ReadBE32Shift(e, 4, BE32(0), 0);
    ReadBE32Shift(e, 8, BE32(0), 0);
  }

  /** Where a reader finds each field of a layer record with four channels. */
  lemma LayerRecordLayout(nameData: seq<byte>, width: int, height: int, entries: seq<ChannelEntry>)
    requires |entries| == 4
    ensures var r := LayerRecordBytes(nameData, width, height, entries);
      |r| == 66 + |nameData| &&
      ReadBE32(r, 0) == 0 && ReadBE32(r, 4) == 0 &&
      ReadBE32(r, 8) == height % TWO_32 && ReadBE32(r, 12) == width % TWO_32 &&
      ReadInt16(r, 16) == 4 &&
      r[42..46] == BlendSignature && r[46..50] == NormalBlendKey &&
      r[50] == 255 && r[51] == 0 && r[52] == 0 && r[53] == 0 &&
      ReadBE32(r, 54) == (8 + |nameData|) % TWO_32 &&
      ReadBE32(r, 58) == 0 && ReadBE32(r, 62) == 0 &&
      r[66..] == nameData
    ensures var r := LayerRecordBytes(nameData, width, height, entries);
      forall k :: 0 <= k < 4 ==>
        r[18 + 6 * k..20 + 6 * k] == BE16(entries[k].id) &&
        ReadBE32(r, 20 + 6 * k) == (|entries[k].data| + 2) % TWO_32
  {
    var r := LayerRecordBytes(nameData, width, height, entries);
    var bounds, info, blend, extra := BoundsBytes(width, height), ChannelInfo(entries), BlendBytes(), ExtraBytes(nameData);
    Concat5(bounds, BE16(4), info, blend, extra);
    BoundsLayout(width, height);
    ReadBE32Shift(r, 0, bounds, 0);
    ReadBE32Shift(r, 0, bounds, 4);
    ReadBE32Shift(r, 0, bounds, 8);
    ReadBE32Shift(r, 0, bounds, 12);
    ReadBE16Shift(r, 16, BE16(4), 0);
    Concat3(BlendSignature, NormalBlendKey, [255, 0, 0, 0]);
    SliceShift(r, 42, blend, 0, 4);
    SliceShift(r, 42, blend, 4, 8);
    assert r[50..54] == blend[8..12];
    ExtraLayout(nameData);
    ReadBE32Shift(r, 54, extra, 0);
    ReadBE32Shift(r, 54, extra, 4);
    ReadBE32Shift(r, 54, extra, 8);
    SliceShift(r, 54, extra, 12, |extra|);
    LayerRecordChannels(nameData, width, height, entries);
  }

  /** The channel fields of a four-channel record: channel k's id and length sit at 18 + 6k. */
  lemma LayerRecordChannels(nameData: seq<byte>, width: int, height: int, entries: seq<ChannelEntry>)
    requires |entries| == 4
    ensures var r := LayerRecordBytes(nameData, width, height, entries);
      forall k :: 0 <= k < 4 ==>
        r[18 + 6 * k..20 + 6 * k] == BE16(entries[k].id) &&
        ReadBE32(r, 20 + 6 * k) == (|entries[k].data| + 2) % TWO_32
  {
    var r := LayerRecordBytes(nameData, width, height, entries);
    var bounds, info, blend, extra := BoundsBytes(width, height), ChannelInfo(entries), BlendBytes(), ExtraBytes(nameData);
    Concat5(bounds, BE16(4), info, blend, extra);
    forall k | 0 <= k < 4
      ensures r[18 + 6 * k..20 + 6 * k] == BE16(entries[k].id)
      ensures ReadBE32(r, 20 + 6 * k) == (|entries[k].data| + 2) % TWO_32
    {
      ChannelInfoAt(entries, k);
      SliceShift(r, 18, info, 6 * k, 6 * k + 2);
      SliceShift(r, 18, info, 6 * k + 2, 6 * k + 6);
      ReadBE32Shift(r, 20 + 6 * k, BE32(|entries[k].data| + 2), 0);
    }
  }

  /** A layer built from a raster is self-describing: its bounds are the raster's size, its four
      channels carry the ids 0, 1, 2 and -1, each declared channel length is exactly the length of
      the channel data block that goes with it, and each block is raw-compressed and holds the
      channel's plane. The name is the (truncated) UTF-8 name as a Pascal string. */
  lemma RasterLayerLayout(name: string, raster: Raster)
    requires raster.WellFormed()
    requires 4 * (raster.width * raster.height) + 2 < TWO_32
    ensures var layer := RasterLayer(name, raster); var r := layer.record;
      |r| == 66 + |PascalString(Utf8(name))| &&
      ReadBE32(r, 8) == raster.height % TWO_32 && ReadBE32(r, 12) == raster.width % TWO_32 &&
      ReadInt16(r, 16) == |layer.channelData| == 4 &&
      (forall k :: 0 <= k < 4 ==>
        ReadInt16(r, 18 + 6 * k) == ChannelIds[k] &&
        ReadBE32(r, 20 + 6 * k) == |layer.channelData[k]| &&
        ReadBE16(layer.channelData[k], 0) == 0 &&
        layer.channelData[k][2..] == Plane(raster.rgba, k, raster.width * raster.height)) &&
      r[66..] == PascalString(Utf8(name)) && r[66] == Min(255, |Utf8(name)|)
  {
    PlanesLayerLayout(PascalString(Utf8(name)), raster.width, raster.height, raster.rgba, raster.width * raster.height);
  }

  /** RasterLayerLayout over a pixel count n given as a number. */
  lemma PlanesLayerLayout(nameData: seq<byte>, width: int, height: int, rgba: seq<byte>, n: nat)
    requires |rgba| == 4 * n && 4 * n + 2 < TWO_32 && |nameData| >= 1
    ensures var entries := ChannelEntries(rgba, n);
      var r := LayerRecordBytes(nameData, width, height, entries);
      |r| == 66 + |nameData| &&
      ReadBE32(r, 8) == height % TWO_32 && ReadBE32(r, 12) == width % TWO_32 &&
      ReadInt16(r, 16) == |Blocks(entries)| == 4 &&
      (forall k :: 0 <= k < 4 ==>
        ReadInt16(r, 18 + 6 * k) == ChannelIds[k] &&
        ReadBE32(r, 20 + 6 * k) == |Blocks(entries)[k]| &&
        ReadBE16(Blocks(entries)[k], 0) == 0 &&
        Blocks(entries)[k][2..] == Plane(rgba, k, n)) &&
      r[66..] == nameData && r[66] == nameData[0]
  {
    var entries := ChannelEntries(rgba, n);
    LayerRecordLayout(nameData, width, height, entries);
    var r := LayerRecordBytes(nameData, width, height, entries);
    var blocks := Blocks(entries);
    forall k | 0 <= k < 4
      ensures ReadInt16(r, 18 + 6 * k) == ChannelIds[k]
      ensures ReadBE32(r, 20 + 6 * k) == |blocks[k]|
      ensures ReadBE16(blocks[k], 0) == 0 && blocks[k][2..] == Plane(rgba, k, n)
    {
      PlaneChannelLayout(r, rgba, n, k);
    }
  }

  /** The record fields of channel k of a raster layer, next to that channel's data block. */
  lemma PlaneChannelLayout(r: seq<byte>, rgba: seq<byte>, n: nat, k: nat)
    requires |rgba| == 4 * n && 4 * n + 2 < TWO_32 && k < 4
    requires var e := ChannelEntries(rgba, n)[k];
      24 + 6 * k <= |r| && r[18 + 6 * k..20 + 6 * k] == BE16(e.id) &&
      ReadBE32(r, 20 + 6 * k) == (|e.data| + 2) % TWO_32
    ensures var block := ChannelBlock(ChannelEntries(rgba, n)[k]);
      ReadInt16(r, 18 + 6 * k) == ChannelIds[k] && ReadBE32(r, 20 + 6 * k) == |block| &&
      ReadBE16(block, 0) == 0 && block[2..] == Plane(rgba, k, n)
  {
    var e := ChannelEntries(rgba, n)[k];
    assert e.id == ChannelIds[k] && e.data == Planes(rgba, n)[k];
    assert |e.data| == n;
    ChannelIdAt(r, 18 + 6 * k, ChannelIds[k]);
    assert Planes(rgba, n)[k] == Plane(rgba, k, n);
  }

  /** A channel id written with `setInt16` reads back as itself. */
  lemma ChannelIdAt(r: seq<byte>, at: nat, id: int)
    requires -0x8000 <= id < 0x8000
    requires at + 2 <= |r| && r[at..at + 2] == BE16(id)
    ensures ReadInt16(r, at) == id
  {
    ReadBE16Shift(r, at, Int16Bytes(id), 0);
  }

  // ---------------------------------------------------------------------------------------------
  // Layer and Mask Information section

  /** The layer records of the layers, in order. */
  function Records(layers: seq<Layer>): (rs: seq<seq<byte>>)
    ensures |rs| == |layers| && forall i :: 0 <= i < |layers| ==> rs[i] == layers[i].record
  {
    seq(|layers|, i requires 0 <= i < |layers| => layers[i].record)
  }

  /** The channel data blocks of all layers, layer after layer (`layers.flatMap`). */
  function ChannelBlocks(layers: seq<Layer>): seq<seq<byte>>
  {
    Flatten(seq(|layers|, i requires 0 <= i < |layers| => layers[i].channelData))
  }

  /** The length of the layer info: count, records and channel data, rounded up to even. */
  function LayerInfoLength(recordsLength: nat, channelLength: nat): (l: nat)
    ensures l % 2 == 0 && 2 + recordsLength + channelLength <= l <= 3 + recordsLength + channelLength
  {
    var l := 2 + recordsLength + channelLength;
    if l % 2 != 0 then l + 1 else l
  }

  /** The section over all layers. */
  function LayerSectionBytes(layers: seq<Layer>): seq<byte>
  {
    SectionBytes(|layers|, Flatten(Records(layers)), Flatten(ChannelBlocks(layers)))
  }

  /** The section over a layer count and the two buffers: its length, the layer info length,
      the count as a signed 16-bit value, the records, the channel data, a zero pad byte when
      needed to make the layer info even, and a zero-length global layer mask. */
  function SectionBytes(count: int, recordBuffer: seq<byte>, channelBuffer: seq<byte>): seq<byte>
  {
    var layerInfoLength := LayerInfoLength(|recordBuffer|, |channelBuffer|);
    SectionHead(count, layerInfoLength) + SectionBody(recordBuffer, channelBuffer) + BE32(0)
  }

  /** The two length fields and the count. */
  function SectionHead(count: int, layerInfoLength: int): (r: seq<byte>)
    ensures |r| == 10
  {
    BE32(4 + layerInfoLength + 4) + BE32(layerInfoLength) + Int16Bytes(count)
  }

  /** The records, the channel data and the pad byte, if any. */
  function SectionBody(recordBuffer: seq<byte>, channelBuffer: seq<byte>): (r: seq<byte>)
    ensures |r| == LayerInfoLength(|recordBuffer|, |channelBuffer|) - 2
  {
    recordBuffer + channelBuffer + (if (2 + |recordBuffer| + |channelBuffer|) % 2 != 0 then [0] else [])
  }

  /** `createLayerInfoSection` over the layers `buildLayers` produced. */
  method CreateLayerInfoSection(layers: seq<Layer>) returns (section: seq<byte>)
    ensures section == LayerSectionBytes(layers)
  {
    var records := Records(layers);
    var recordBuffer := ConcatBytes(records);
    var channelBuffer := ConcatBytes(ChannelBlocks(layers));
    section := WriteSection(|layers|, recordBuffer, channelBuffer);
  }

  /** The buffer-writing part of `createLayerInfoSection`. */
  method WriteSection(count: int, recordBuffer: seq<byte>, channelBuffer: seq<byte>) returns (section: seq<byte>)
    ensures section == SectionBytes(count, recordBuffer, channelBuffer)
  {
    var layerInfoLength := 2 + |recordBuffer| + |channelBuffer|;
    if layerInfoLength % 2 != 0 {
      layerInfoLength := layerInfoLength + 1;
    }
    var totalLength := 4 + layerInfoLength + 4;
    var buffer := new byte[4 + totalLength](_ => 0);
    FilledFresh(buffer[..]);
    WriteSectionHead(buffer, count, layerInfoLength);
    ghost var done := SectionHead(count, layerInfoLength);
    var offset := WriteSectionBody(buffer, recordBuffer, channelBuffer, done);
    done := done + SectionBody(recordBuffer, channelBuffer);
    PutUint32(buffer, offset, 0, done);
    done := done + BE32(0);
    section := buffer[..];
    FilledFull(section, done);
  }

  /** The total length, the layer info length and the count at the start of the section. */
  method WriteSectionHead(buffer: array<byte>, count: int, layerInfoLength: int)
    requires 10 <= buffer.Length && Filled(buffer[..], [])
    modifies buffer
    ensures Filled(buffer[..], SectionHead(count, layerInfoLength))
  {
    var totalLength := 4 + layerInfoLength + 4;
    PutUint32(buffer, 0, totalLength, []);
    assert [] + BE32(totalLength) == BE32(totalLength);
    PutUint32(buffer, 4, layerInfoLength, BE32(totalLength));
    PutInt16(buffer, 8, count, BE32(totalLength) + BE32(layerInfoLength));
  }

  /** The two buffers after the count, then the pad byte when the layer info so far is odd;
      returns the offset reached. */
  method WriteSectionBody(buffer: array<byte>, recordBuffer: seq<byte>, channelBuffer: seq<byte>, ghost head: seq<byte>)
    returns (offset: nat)
    requires |head| == 10 && 10 + |SectionBody(recordBuffer, channelBuffer)| <= buffer.Length
    requires Filled(buffer[..], head)
    modifies buffer
    ensures offset == 10 + |SectionBody(recordBuffer, channelBuffer)|
    ensures Filled(buffer[..], head + SectionBody(recordBuffer, channelBuffer))
  {
    offset := 10;
    ghost var done := head;
    PutBytes(buffer, offset, recordBuffer, done);
    done, offset := done + recordBuffer, offset + |recordBuffer|;
    PutBytes(buffer, offset, channelBuffer, done);
    done, offset := done + channelBuffer, offset + |channelBuffer|;
    if (offset - 8) % 2 != 0 {
      PutByte(buffer, offset, 0, done);
      done, offset := done + [0], offset + 1;
      assert done == head + SectionBody(recordBuffer, channelBuffer);
    } else {
      assert done == head + SectionBody(recordBuffer, channelBuffer);
    }
  }

  /** The two declared lengths agree with the actual lengths: the first counts everything after
      itself, the second the layer info, which is even; the count reads back when it fits. */
  lemma SectionLengths(count: int, recordBuffer: seq<byte>, channelBuffer: seq<byte>)
    ensures var s := SectionBytes(count, recordBuffer, channelBuffer);
      12 <= |s| &&
      ReadBE32(s, 0) == (|s| - 4) % TWO_32 &&
      ReadBE32(s, 4) == (|s| - 12) % TWO_32 && (|s| - 12) % 2 == 0 &&
      ReadBE32(s, |s| - 4) == 0
    ensures 0 <= count < 0x8000 ==> ReadInt16(SectionBytes(count, recordBuffer, channelBuffer), 8) == count
  {
    var s := SectionBytes(count, recordBuffer, channelBuffer);
    var head := SectionHead(count, LayerInfoLength(|recordBuffer|, |channelBuffer|));
    var pad: seq<byte> := if (2 + |recordBuffer| + |channelBuffer|) % 2 != 0 then [0] else [];
    var zero := BE32(0);
    assert s == head + recordBuffer + channelBuffer + pad + zero;
    Concat5(head, recordBuffer, channelBuffer, pad, zero);
  }

  /** What the section holds between its head and its end: the records from offset 10, the
      channel data right after them, then only zero bytes, the optional pad and the four zero
      bytes of the trailing global mask length. */
  lemma SectionContents(count: int, recordBuffer: seq<byte>, channelBuffer: seq<byte>)
    ensures var s := SectionBytes(count, recordBuffer, channelBuffer);
      var bodyEnd := 10 + |recordBuffer| + |channelBuffer|;
      bodyEnd + 4 <= |s| <= bodyEnd + 5 &&
      s[10..10 + |recordBuffer|] == recordBuffer &&
      s[10 + |recordBuffer|..bodyEnd] == channelBuffer &&
      forall i :: bodyEnd <= i < |s| ==> s[i] == 0
  {
    var s := SectionBytes(count, recordBuffer, channelBuffer);
    var head := SectionHead(count, LayerInfoLength(|recordBuffer|, |channelBuffer|));
    var pad: seq<byte> := if (2 + |recordBuffer| + |channelBuffer|) % 2 != 0 then [0] else [];
    var zero := BE32(0);
    assert s == head + recordBuffer + channelBuffer + pad + zero;
    Concat5(head, recordBuffer, channelBuffer, pad, zero);
    var bodyEnd := 10 + |recordBuffer| + |channelBuffer|;
    forall i | bodyEnd <= i < |s|
      ensures s[i] == 0
    {
      if i < bodyEnd + |pad| {
        assert s[i] == s[bodyEnd..bodyEnd + |pad|][i - bodyEnd];
      } else {
        assert s[i] == s[bodyEnd + |pad|..][i - bodyEnd - |pad|];
      }
    }
  }

  // ---------------------------------------------------------------------------------------------
  // The whole file

  /** The file: header, an empty Color Mode Data section and an empty Image Resources section
      (each only its zero length), the layer section, and the composite image. */
  function DocumentBytes(layers: seq<Layer>, composite: Raster): seq<byte>
    requires composite.WellFormed()
  {
    HeaderBytes(composite.width, composite.height) + BE32(0) + BE32(0) + LayerSectionBytes(layers)
    + CompositeBytes(composite.rgba, composite.width * composite.height)
  }

  /** `buildPsdDocument`, given the layers `buildLayers` produced and the flattened canvas
      `createCompositeImage` draws, both of the document's canvas size. */
  method BuildPsdDocument(layers: seq<Layer>, composite: Raster) returns (document: seq<byte>)
    requires composite.WellFormed()
    ensures document == DocumentBytes(layers, composite)
  {
    var header := CreatePsdHeader(composite.width, composite.height);
    var colorModeData: seq<byte> := [];
    var imageResources: seq<byte> := [];
    var layerInfo := CreateLayerInfoSection(layers);
    var compositeData := EncodeCompositeImage(composite);
    var totalLength := |header| + 4 + |colorModeData| + 4 + |imageResources| + |layerInfo| + |compositeData|;
    var buffer := new byte[totalLength](_ => 0);
    FilledFresh(buffer[..]);
    var offset := 0;
    PutBytes(buffer, offset, header, []);
    assert [] + header == header;
    ghost var done := header;
    offset := offset + |header|;
    PutUint32(buffer, offset, |colorModeData|, done);
    done, offset := done + BE32(0), offset + 4;
    PutBytes(buffer, offset, colorModeData, done);
    assert done + colorModeData == done;
    offset := offset + |colorModeData|;
    PutUint32(buffer, offset, |imageResources|, done);
    done, offset := done + BE32(0), offset + 4;
    PutBytes(buffer, offset, imageResources, done);
    assert done + imageResources == done;
    offset := offset + |imageResources|;
    PutBytes(buffer, offset, layerInfo, done);
    done, offset := done + layerInfo, offset + |layerInfo|;
    PutBytes(buffer, offset, compositeData, done);
    done := done + compositeData;
    document := buffer[..];
    FilledFull(document, done);
  }

  /** A reader can walk the file: the header comes first, the two empty sections declare length
      zero, the layer section starts at offset 34 and its declared length, read there, leads
      exactly to the composite image data. */
  lemma DocumentLayout(layers: seq<Layer>, composite: Raster)
    requires composite.WellFormed()
    requires |LayerSectionBytes(layers)| < TWO_32
    ensures var d := DocumentBytes(layers, composite);
      var section := LayerSectionBytes(layers);
      var n := composite.width * composite.height;
      |d| == HEADER_LENGTH + 8 + |section| + 2 + 4 * n &&
      d[..HEADER_LENGTH] == HeaderBytes(composite.width, composite.height) &&
      ReadBE32(d, 26) == 0 && ReadBE32(d, 30) == 0 &&
      d[34..34 + |section|] == section &&
      34 + 4 + ReadBE32(d, 34) == 34 + |section| &&
      d[34 + |section|..] == CompositeBytes(composite.rgba, n)
  {
    var n := composite.width * composite.height;
    CompositeLayout(composite.rgba, n);
    HeaderLayout(composite.width, composite.height);
    SectionLengths(|layers|, Flatten(Records(layers)), Flatten(ChannelBlocks(layers)));
    DocumentWalk(HeaderBytes(composite.width, composite.height), LayerSectionBytes(layers),
                 CompositeBytes(composite.rgba, n));
  }

  lemma DocumentWalk(header: seq<byte>, section: seq<byte>, tail: seq<byte>)
    requires |header| == HEADER_LENGTH && 4 <= |section| < TWO_32 + 4
    requires ReadBE32(section, 0) == (|section| - 4) % TWO_32
    ensures var d := header + BE32(0) + BE32(0) + section + tail;
      |d| == HEADER_LENGTH + 8 + |section| + |tail| &&
      d[..HEADER_LENGTH] == header && ReadBE32(d, 26) == 0 && ReadBE32(d, 30) == 0 &&
      d[34..34 + |section|] == section &&
      34 + 4 + ReadBE32(d, 34) == 34 + |section| &&
      d[34 + |section|..] == tail
  {
    var d := header + BE32(0) + BE32(0) + section + tail;
    assert d[26..30] == BE32(0);
    assert d[30..34] == BE32(0);
    assert d[34..34 + |section|] == section;
    assert d[34..38] == section[..4];
  }
}
